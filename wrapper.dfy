/**
 * The console wrapper's configuration logic: the settings read from the INI file
 * and the rules that turn them into a log path, a working directory, a command
 * line and an application name, and Run, which chains those steps, sets the
 * environment and launches the child.
 *
 * Every Win32 call that reads the outside world is an input: what a copy-out call
 * (GetPrivateProfileString, GetModuleFileName) would write given room enough and
 * what GetLastError says after it, the system's answer to SetEnvironmentVariable,
 * CreateFile, CreateProcess and WaitForSingleObject, and whether the allocations
 * succeed.
 */
module Wrapper {
  import opened Win32
  import opened Paths
  import Directories
  import EnvSection
  import EnvSectionFacts

  /** _MAX_PATH, the size in characters of every buffer Run allocates. */
  const MaxPath: nat := 260

  const LogExtension: string := ".log"

  /** The variable Run sets to the configuration file's directory. */
  const BasePathVariable: string := "PHAKA_SERVICEW_BASEPATH"

  // ---------------------------------------------------------------------------
  // Reading settings

  /** What a copy-out call would write with room enough, and what GetLastError reports after it. */
  datatype Source = Source(text: string, lastError: Dword)

  /** A copy into `cch` characters: the text, cut to leave room for the terminator. */
  function Copied(text: string, cch: nat): (r: string)
    requires 0 < cch
    ensures |r| < cch && |r| <= |text| && r == text[..|r|]
    ensures |text| < cch ==> r == text
    ensures |r| == 0 <==> |text| == 0 || cch == 1
  {
    if |text| < cch then text else text[..cch - 1]
  }

  /**
   * GetPrivateProfileString into `cch` characters, checked as the wrapper does: when
   * nothing was copied, GetLastError is consulted, and anything but a missing file
   * becomes the HRESULT (ERROR_SUCCESS becomes S_OK).
   */
  function ReadSetting(src: Source, cch: nat): (r: Result<string>)
    requires 0 < cch
    ensures r.Err? <==> |Copied(src.text, cch)| == 0 && src.lastError != ERROR_FILE_NOT_FOUND && src.lastError != NO_ERROR
    ensures r.Err? ==> r.hr == HResultFromWin32(src.lastError) && Failed(r.hr)
    ensures r.Ok? ==> r.value == Copied(src.text, cch)
  {
    HResultFromWin32Fails(src.lastError);
    var v := Copied(src.text, cch);
    var hr := if |v| == 0 && src.lastError != ERROR_FILE_NOT_FOUND then HResultFromWin32(src.lastError) else S_OK;
    if Failed(hr) then Err(hr) else Ok(v)
  }

  /** The HRESULT of a step that yields a value. */
  function HrOf<T>(r: Result<T>): (hr: HResult)
    ensures Succeeded(hr) ==> r.Ok?
  {
    if r.Ok? then S_OK else if Failed(r.hr) then r.hr else E_FAIL
  }

  // ---------------------------------------------------------------------------
  // Paths derived from the configuration path

  /**
   * PathChangeExtension: copy the path, then, when the extension is non-empty (its
   * length is checked against cchExt + 1), rename the path's extension to it.
   */
  function PathChangeExtension(cchDest: nat, src: string, ext: string, cchExt: nat): (r: Result<string>)
  {
    match CchCopy(cchDest, src)
    case Err(hr) => Err(hr)
    case Ok(dest) =>
      var length := if cchExt > 0 then CchLength(ext, cchExt + 1) else Ok(0);
      match length
      case Err(hr) => Err(hr)
      case Ok(n) => if n > 0 then Fit(cchDest, RenameExtension(dest, ext)) else Ok(dest)
  }

  /** What PathChangeExtension yields for every input: the renamed path, the copied path, or the failing check. */
  lemma PathChangeExtensionResult(cchDest: nat, src: string, ext: string, cchExt: nat)
    ensures var r := PathChangeExtension(cchDest, src, ext, cchExt);
      if !(0 < cchDest && |src| < cchDest) then r.Err?
      else if cchExt > 0 && |ext| >= cchExt + 1 then r == Err(STRSAFE_E_INVALID_PARAMETER)
      else if cchExt == 0 || |ext| == 0 then r == Ok(src)
      else r.Ok? <==> |RenameExtension(src, ext)| < cchDest
    ensures var r := PathChangeExtension(cchDest, src, ext, cchExt);
      r.Ok? && cchExt > 0 && |ext| > 0 ==> r.value == RenameExtension(src, ext)
  {
  }

  /** Changing the extension to ".log" gives a path whose extension is ".log" and whose stem is the source's. */
  lemma ChangeToLogExtension(cchDest: nat, src: string)
    requires |src| < cchDest && |RenameExtension(src, LogExtension)| < cchDest
    ensures var r := PathChangeExtension(cchDest, src, LogExtension, 4);
      r.Ok? && Extension(r.value) == LogExtension && RemoveExtension(r.value) == RemoveExtension(src)
  {
    assert LogExtension[1..] == "log";
    RenameExtensionSetsExtension(src, LogExtension);
  }

  /** GetDirectoryName: copy the path and remove its final component. */
  function GetDirectoryName(cchDest: nat, src: string): (r: Result<string>)
    ensures r.Ok? <==> 0 < cchDest && |src| < cchDest
    ensures r.Ok? ==> r.value == RemoveFileSpec(src) && |r.value| < cchDest
  {
    match CchCopy(cchDest, src)
    case Err(hr) => Err(hr)
    case Ok(dest) => Ok(RemoveFileSpec(dest))
  }

  /** The directory name of a file inside a directory is that directory. */
  lemma DirectoryOfFileInDirectory(cchDest: nat, dir: string, name: string)
    requires dir != [] && dir[|dir| - 1] != Backslash && !IsDrive(dir)
    requires Backslash !in name
    requires |Append(dir, name)| < cchDest
    ensures GetDirectoryName(cchDest, Append(dir, name)) == Ok(dir)
  {
    AppendThenRemoveFileSpec(dir, name);
  }

  // ---------------------------------------------------------------------------
  // GetLogPathSetting

  /**
   * GetLogPathSetting: Logging.Path, read into a MAX_PATH buffer. Empty: the
   * configuration path with extension ".log". Relative: joined to the configuration
   * file's directory, and the directory that will hold the log is created. Otherwise
   * the setting as it is. `memory` says whether the two buffers can be allocated;
   * the file system is the one CreateDirectoryX works on.
   */
  function GetLogPathSetting(cchDest: nat, cfg: string, setting: Source, memory: bool, fs: Directories.FileSystem)
    : (r: (Result<string>, Directories.FileSystem))
  {
    if !memory then (Err(E_OUTOFMEMORY), fs)
    else match ReadSetting(setting, MaxPath)
      case Err(hr) => (Err(hr), fs)
      case Ok(s) =>
        match CchLength(s, MaxPath)
        case Err(hr) => (Err(hr), fs)
        case Ok(length) =>
          if length == 0 then (PathChangeExtension(cchDest, cfg, LogExtension, 4), fs)
          else if IsRelative(s) then LogBesideConfiguration(cchDest, cfg, s, fs)
          else (CchCopy(cchDest, s), fs)
  }

  /** The relative branch of GetLogPathSetting. */
  function LogBesideConfiguration(cchDest: nat, cfg: string, s: string, fs: Directories.FileSystem)
    : (r: (Result<string>, Directories.FileSystem))
  {
    match CchCopy(cchDest, cfg)
    case Err(hr) => (Err(hr), fs)
    case Ok(dest) =>
      match Fit(cchDest, Append(RemoveFileSpec(dest), s))
      case Err(hr) => (Err(hr), fs)
      case Ok(path) =>
        match CchCopy(MaxPath, path)
        case Err(hr) => (Err(hr), fs)
        case Ok(base) =>
          var made := Directories.CreateDirectoryXSpec(fs, RemoveFileSpec(base), true);
          (if Failed(made.hr) then Err(made.hr) else Ok(path), made.fs)
  }

  /** With no Logging.Path, the log file sits beside the configuration file with extension ".log", and nothing is created. */
  lemma LogPathWhenEmpty(cchDest: nat, cfg: string, lastError: Dword, fs: Directories.FileSystem)
    requires lastError == ERROR_FILE_NOT_FOUND || lastError == NO_ERROR
    requires |cfg| < cchDest && |RenameExtension(cfg, LogExtension)| < cchDest
    ensures var r := GetLogPathSetting(cchDest, cfg, Source("", lastError), true, fs);
      r.0 == Ok(RenameExtension(cfg, LogExtension)) && r.1 == fs
      && Extension(r.0.value) == LogExtension && RemoveExtension(r.0.value) == RemoveExtension(cfg)
  {
    ChangeToLogExtension(cchDest, cfg);
  }

  /** Without a Logging.Path and without an explanation from GetLastError, the read fails and nothing else happens. */
  lemma LogPathReadFailure(cchDest: nat, cfg: string, lastError: Dword, fs: Directories.FileSystem)
    requires lastError != ERROR_FILE_NOT_FOUND && lastError != NO_ERROR
    ensures GetLogPathSetting(cchDest, cfg, Source("", lastError), true, fs) == (Err(HResultFromWin32(lastError)), fs)
  {
  }

  /**
   * A relative Logging.Path is joined to the configuration file's directory; the
   * directory holding the log is created, and the outcome is CreateDirectoryX's.
   */
  lemma LogPathWhenRelative(cchDest: nat, cfg: string, s: string, fs: Directories.FileSystem)
    requires 0 < |s| < MaxPath && IsRelative(s)
    requires |cfg| < cchDest && |Append(RemoveFileSpec(cfg), s)| < cchDest && |Append(RemoveFileSpec(cfg), s)| < MaxPath
    ensures var path := Append(RemoveFileSpec(cfg), s);
      var made := Directories.CreateDirectoryXSpec(fs, RemoveFileSpec(path), true);
      var r := GetLogPathSetting(cchDest, cfg, Source(s, NO_ERROR), true, fs);
      r.1 == made.fs && (r.0.Ok? <==> Succeeded(made.hr)) && (r.0.Ok? ==> r.0.value == path)
      && (r.0.Err? ==> r.0.hr == made.hr)
  {
  }

  /** For a relative Logging.Path that is a plain file name, the directory created is the configuration file's own. */
  lemma RelativeLogFileCreatesConfigurationDirectory(cchDest: nat, cfg: string, s: string, fs: Directories.FileSystem)
    requires 0 < |s| < MaxPath && IsRelative(s) && Backslash !in s
    requires RemoveFileSpec(cfg) != [] && RemoveFileSpec(cfg)[|RemoveFileSpec(cfg)| - 1] != Backslash && !IsDrive(RemoveFileSpec(cfg))
    requires |cfg| < cchDest && |Append(RemoveFileSpec(cfg), s)| < cchDest && |Append(RemoveFileSpec(cfg), s)| < MaxPath
    ensures GetLogPathSetting(cchDest, cfg, Source(s, NO_ERROR), true, fs).1
      == Directories.CreateDirectoryXSpec(fs, RemoveFileSpec(cfg), true).fs
  {
    AppendThenRemoveFileSpec(RemoveFileSpec(cfg), s);
  }

  /** An absolute Logging.Path is the log path, copied as it is; nothing is created. */
  lemma LogPathWhenAbsolute(cchDest: nat, cfg: string, s: string, fs: Directories.FileSystem)
    requires 0 < |s| < MaxPath && !IsRelative(s)
    ensures var r := GetLogPathSetting(cchDest, cfg, Source(s, NO_ERROR), true, fs);
      r.1 == fs && (r.0.Ok? <==> |s| < cchDest) && (r.0.Ok? ==> r.0.value == s)
  {
  }

  // ---------------------------------------------------------------------------
  // GetWorkingDirectory and GetCommandLineSetting

  /** GetWorkingDirectory: Application.WorkingDirectory, or the configuration file's directory when that is empty. */
  function GetWorkingDirectory(cchDest: nat, cfg: string, setting: Source): (r: Result<string>)
    requires 0 < cchDest
  {
    match ReadSetting(setting, cchDest)
    case Err(hr) => Err(hr)
    case Ok(s) =>
      match CchLength(s, cchDest)
      case Err(hr) => Err(hr)
      case Ok(length) => if length == 0 then GetDirectoryName(cchDest, cfg) else Ok(s)
  }

  /** A non-empty working directory setting is used unchanged; an empty one falls back to the configuration file's directory. */
  lemma WorkingDirectoryFallback(cchDest: nat, cfg: string, setting: Source)
    requires 0 < cchDest
    ensures var r := GetWorkingDirectory(cchDest, cfg, setting);
      (0 < |setting.text| < cchDest ==> r == Ok(setting.text))
      && (|setting.text| == 0 && (setting.lastError == ERROR_FILE_NOT_FOUND || setting.lastError == NO_ERROR)
          ==> r == GetDirectoryName(cchDest, cfg))
      && (|setting.text| == 0 && setting.lastError != ERROR_FILE_NOT_FOUND && setting.lastError != NO_ERROR
          ==> r == Err(HResultFromWin32(setting.lastError)))
  {
  }

  /** GetCommandLineSetting: Application.CommandLine as read. */
  function GetCommandLineSetting(cchDest: nat, setting: Source): (r: Result<string>)
    requires 0 < cchDest
    ensures r.Ok? ==> |r.value| < cchDest && |r.value| <= |setting.text| && r.value == setting.text[..|r.value|]
    ensures r.Ok? ==> r.value == Copied(setting.text, cchDest)
    ensures r.Err? <==> |Copied(setting.text, cchDest)| == 0 && setting.lastError != ERROR_FILE_NOT_FOUND && setting.lastError != NO_ERROR
    ensures r.Err? ==> r.hr == HResultFromWin32(setting.lastError)
  {
    ReadSetting(setting, cchDest)
  }

  // ---------------------------------------------------------------------------
  // GetApplicationName

  /**
   * One read of Service.DisplayName, with the length check the wrapper applies: it is
   * a byte count against a bound given in characters, so a name of half the buffer
   * or more is refused even when it was copied whole.
   */
  function ReadDisplayName(setting: Source, cchDest: nat): (r: Result<string>)
    requires 0 < cchDest
    ensures r.Ok? ==> r.value == Copied(setting.text, cchDest) && |r.value| < cchDest / CharSize
  {
    match ReadSetting(setting, cchDest)
    case Err(hr) => Err(hr)
    case Ok(s) =>
      match CbLength(s, cchDest)
      case Err(hr) => Err(hr)
      case Ok(_) => Ok(s)
  }

  /**
   * GetApplicationName: the display name, read a second time when the first read is
   * empty; when both are empty, the executable's file name without directory and
   * extension. Each read of the setting is its own call, with its own outcome
   * (`first`, `second`). GetModuleFileName copies at most cchDest - 1 characters;
   * when it copies none, GetLastError decides.
   */
  function GetApplicationName(hasDest: bool, cchDest: nat, first: Source, second: Source, exe: Source): (r: Result<string>)
  {
    if !hasDest || cchDest == 0 then Err(E_INVALIDARG)
    else match ReadDisplayName(first, cchDest)
      case Err(hr) => Err(hr)
      case Ok(name) =>
        if |name| > 0 then Ok(name)
        else match ReadDisplayName(second, cchDest)
          case Err(hr) => Err(hr)
          case Ok(name2) =>
            if |name2| > 0 then Ok(name2)
            else FallbackName(cchDest, exe)
  }

  /**
   * The application name: E_INVALIDARG without a buffer; the display name when one
   * is set and fits the length check; otherwise the executable's name, without
   * directory or extension.
   */
  lemma ApplicationNameRules(hasDest: bool, cchDest: nat, first: Source, second: Source, exe: Source)
    ensures !hasDest || cchDest == 0 ==> GetApplicationName(hasDest, cchDest, first, second, exe) == Err(E_INVALIDARG)
    ensures hasDest && 0 < cchDest && 0 < |first.text| < cchDest / CharSize
      ==> GetApplicationName(hasDest, cchDest, first, second, exe) == Ok(first.text)
    ensures hasDest && 0 < cchDest && |first.text| == 0 && |second.text| == 0
      && (first.lastError == ERROR_FILE_NOT_FOUND || first.lastError == NO_ERROR)
      && (second.lastError == ERROR_FILE_NOT_FOUND || second.lastError == NO_ERROR)
      && 0 < |exe.text| < cchDest
      ==> GetApplicationName(hasDest, cchDest, first, second, exe) == Ok(RemoveExtension(StripPath(exe.text)))
  {
    if hasDest && 0 < cchDest && 0 < |first.text| < cchDest / CharSize {
      assert |first.text| < cchDest;
    }
  }

  /** A display name copied whole but not shorter than half the buffer fails the byte-count check. */
  lemma LongDisplayNameRefused(cchDest: nat, first: Source, second: Source, exe: Source)
    requires 0 < |first.text| && cchDest / CharSize <= |first.text| < cchDest
    ensures GetApplicationName(true, cchDest, first, second, exe) == Err(STRSAFE_E_INVALID_PARAMETER)
  {
  }

  /**
   * After an empty first read the outcome is the second read's: its failure, its
   * name, or, when it is empty too, the executable-name fallback.
   */
  lemma SecondReadDecides(cchDest: nat, first: Source, second: Source, exe: Source)
    requires 0 < cchDest && ReadDisplayName(first, cchDest) == Ok("")
    ensures ReadDisplayName(second, cchDest).Err? ==>
      GetApplicationName(true, cchDest, first, second, exe) == Err(ReadDisplayName(second, cchDest).hr)
    ensures 0 < |second.text| < cchDest / CharSize ==>
      GetApplicationName(true, cchDest, first, second, exe) == Ok(second.text)
    ensures ReadDisplayName(second, cchDest) == Ok("") ==>
      GetApplicationName(true, cchDest, first, second, exe) == FallbackName(cchDest, exe)
  {
    if 0 < |second.text| < cchDest / CharSize {
      assert |second.text| < cchDest;
    }
  }

  /**
   * When the file does not change between the two reads, the second read never changes
   * the outcome: an empty first read leads to the fallback.
   */
  lemma SecondReadRedundant(cchDest: nat, setting: Source, exe: Source)
    requires 0 < cchDest
    requires ReadDisplayName(setting, cchDest) == Ok("")
    ensures GetApplicationName(true, cchDest, setting, setting, exe) == FallbackName(cchDest, exe)
  {
  }

  /** The executable-name fallback on its own. */
  function FallbackName(cchDest: nat, exe: Source): (r: Result<string>)
    requires 0 < cchDest
    ensures r.Ok? ==> Backslash !in r.value && r.value + Extension(StripPath(Copied(exe.text, cchDest))) == StripPath(Copied(exe.text, cchDest))
  {
    var m := Copied(exe.text, cchDest);
    var hr := if |m| == 0 then HResultFromWin32(exe.lastError) else S_OK;
    if Failed(hr) then Err(hr)
    else
      var name := StripPath(m);
      assert RemoveExtension(name) == name[..|RemoveExtension(name)|];
      Ok(RemoveExtension(name))
  }

  // ---------------------------------------------------------------------------
  // OpenLogFile, ExecuteChildProcess, GetErrorMessage

  /** A HANDLE value; CreateFile reports failure with INVALID_HANDLE_VALUE, never with NULL. */
  datatype Handle = Handle(value: int)

  const NullHandle: Handle := Handle(0)
  const InvalidHandleValue: Handle := Handle(-1)

  /**
   * OpenLogFile: a NULL handle argument is E_INVALIDARG. Otherwise CreateFile opens the
   * log for appending (`created` is the handle it returns, or None when it fails) and
   * only a NULL handle is treated as a failure.
   */
  function OpenLogFile(hasHandle: bool, created: Option<Handle>, lastError: Dword): (r: (HResult, Handle))
  {
    if !hasHandle then (E_INVALIDARG, NullHandle)
    else
      var handle := if created.Some? then created.value else InvalidHandleValue;
      (if handle == NullHandle then HResultFromWin32(lastError) else S_OK, handle)
  }

  /** OpenLogFile succeeds whenever it is given somewhere to put the handle, even when CreateFile fails. */
  lemma OpenLogFileNeverFails(created: Option<Handle>, lastError: Dword)
    requires created.Some? ==> created.value != NullHandle
    ensures OpenLogFile(true, created, lastError).0 == S_OK
    ensures created.None? ==> OpenLogFile(true, created, lastError).1 == InvalidHandleValue
  {
  }

  /**
   * The CreateProcess call ExecuteChildProcess makes: handles are inherited, the
   * environment is the wrapper's own, and the child's standard output and standard
   * error are the given handle.
   */
  datatype Launch = Launch(commandLine: string, currentDirectory: Option<string>, inheritHandles: bool, stdOutput: Handle)

  /** The system's answers: CreateProcess's error, if any, and GetLastError when the wait fails, if it does. */
  datatype ChildOutcome = ChildOutcome(createError: Option<Win32Error>, waitError: Option<Dword>)

  /**
   * ExecuteChildProcess: the current directory must be shorter than _MAX_PATH bytes,
   * and an empty one is passed as NULL; the child is created and waited for.
   */
  function ExecuteChildProcess(commandLine: string, currentDirectory: string, stdOutput: Handle, memory: bool, child: ChildOutcome)
    : (r: (HResult, Option<Launch>))
    ensures r.1.Some? ==> r.1.value.commandLine == commandLine && r.1.value.inheritHandles && r.1.value.stdOutput == stdOutput
    ensures r.1.Some? ==> (r.1.value.currentDirectory.None? <==> currentDirectory == [])
    ensures r.1.Some? <==> memory && |currentDirectory| < MaxPath / CharSize
  {
    if !memory then (E_OUTOFMEMORY, None)
    else match CbLength(currentDirectory, MaxPath)
      case Err(hr) => (hr, None)
      case Ok(length) =>
        var launch := Launch(commandLine, if length == 0 then None else Some(currentDirectory), true, stdOutput);
        if child.createError.Some? then (HResultFromWin32(child.createError.value), Some(launch))
        else if child.waitError.Some? then (HResultFromWin32(child.waitError.value), Some(launch))
        else (S_OK, Some(launch))
  }

  /** ExecuteChildProcess fails exactly when a check, the creation or the wait fails. */
  lemma ExecuteChildProcessOutcome(commandLine: string, currentDirectory: string, stdOutput: Handle, child: ChildOutcome)
    requires |currentDirectory| < MaxPath / CharSize
    ensures Failed(ExecuteChildProcess(commandLine, currentDirectory, stdOutput, true, child).0)
      <==> child.createError.Some? || (child.waitError.Some? && child.waitError.value != NO_ERROR)
  {
    if child.createError.Some? {
      HResultFromWin32Fails(child.createError.value);
    } else if child.waitError.Some? {
      HResultFromWin32Fails(child.waitError.value);
    }
  }

  const FACILITY_MSMQ: int := 14
  const NERR_BASE: int := 2100
  const MAX_NERR: int := NERR_BASE + 899

  /** Where GetErrorMessage looks up the text of a message id. */
  datatype MessageSource = MessageQueuing | NetworkMessages | SystemMessages

  /** GetErrorMessage's choice: message queuing facility first, then the network error range, then the system table. */
  function MessageSourceOf(id: HResult): (r: MessageSource)
    ensures r == MessageQueuing <==> Facility(id) == FACILITY_MSMQ
    ensures r == NetworkMessages <==> Facility(id) != FACILITY_MSMQ && NERR_BASE <= id <= MAX_NERR
  {
    if Facility(id) == FACILITY_MSMQ then MessageQueuing
    else if NERR_BASE <= id && id <= MAX_NERR then NetworkMessages
    else SystemMessages
  }

  /**
   * The id is compared as a signed HRESULT: a network error code passed through
   * HRESULT_FROM_WIN32 is negative, so its text comes from the system table.
   */
  lemma ConvertedNetworkErrorsUseSystemTable(code: Win32Error)
    requires NERR_BASE <= code <= MAX_NERR
    ensures MessageSourceOf(code) == NetworkMessages
    ensures MessageSourceOf(HResultFromWin32(code)) == SystemMessages
  {
    assert Facility(code) == 0;
    assert HResultFromWin32(code) == code + 0x8007_0000 - TwoTo32;
    assert Facility(HResultFromWin32(code)) == 7;
  }

  /** GetErrorMessage's result: FormatMessage's character count is `count`; a zero count is passed through HRESULT_FROM_WIN32. */
  function GetErrorMessage(id: HResult, count: Dword): (hr: HResult)
    ensures hr == S_OK
  {
    HResultFromWin32Fails(NO_ERROR);
    if count == 0 then HResultFromWin32(count) else S_OK
  }

  // ---------------------------------------------------------------------------
  // Run

  /** The steps of Run, in the order the source takes them. */
  datatype Step = BaseDirectory | BasePath | LogPath | CommandLine | SectionVariables | WorkingDirectory | LogFile | Child

  const Steps: seq<Step> := [BaseDirectory, BasePath, LogPath, CommandLine, SectionVariables, WorkingDirectory, LogFile, Child]

  datatype Ran = Ran(step: Step, hr: HResult)

  /** What Run has done so far: its HRESULT, the steps taken with their results, the environment, the file system and the buffers. */
  datatype RunState = RunState(
    hr: HResult,
    ran: seq<Ran>,
    env: EnvSection.Environment,
    fs: Directories.FileSystem,
    basePath: string,
    logPath: string,
    commandLine: string,
    workingDirectory: string,
    log: Handle,
    launched: Option<Launch>)

  /** The configuration file's settings as the system returns them. */
  datatype Config = Config(logPath: Source, commandLine: Source, workingDirectory: Source, section: EnvSection.SectionRead)

  /** The system's other answers during Run. */
  datatype System = System(
    memory: bool,
    setBasePath: Option<Win32Error>,
    setSection: nat -> Option<Win32Error>,
    logFile: Option<Handle>,
    logError: Dword,
    child: ChildOutcome)

  /** Records a step that ran. */
  function Record(s: RunState, step: Step, hr: HResult): (r: RunState)
    ensures r.ran == s.ran + [Ran(step, hr)] && r.hr == hr
  {
    s.(hr := hr, ran := s.ran + [Ran(step, hr)])
  }

  /** The value of a step that succeeded, or what the buffer held. */
  function ValueOr(r: Result<string>, old_: string): string
  {
    if r.Ok? then r.value else old_
  }

  function StepBaseDirectory(s: RunState, cfg: string): (r: RunState)
    ensures Failed(s.hr) ==> r == s
    ensures Succeeded(s.hr) ==> r.ran == s.ran + [Ran(BaseDirectory, r.hr)]
  {
    if Failed(s.hr) then s
    else
      var d := GetDirectoryName(MaxPath, cfg);
      Record(s.(basePath := ValueOr(d, s.basePath)), BaseDirectory, HrOf(d))
  }

  function StepBasePath(s: RunState, refusal: Option<Win32Error>): (r: RunState)
    ensures Failed(s.hr) ==> r == s
    ensures Succeeded(s.hr) ==> r.ran == s.ran + [Ran(BasePath, r.hr)]
  {
    if Failed(s.hr) then s
    else if refusal.Some? then Record(s, BasePath, HResultFromWin32(refusal.value))
    else Record(s.(env := s.env[BasePathVariable := s.basePath]), BasePath, S_OK)
  }

  function StepLogPath(s: RunState, cfg: string, c: Config): (r: RunState)
    ensures Failed(s.hr) ==> r == s
    ensures Succeeded(s.hr) ==> r.ran == s.ran + [Ran(LogPath, r.hr)]
  {
    if Failed(s.hr) then s
    else
      var l := GetLogPathSetting(MaxPath, cfg, c.logPath, true, s.fs);
      Record(s.(logPath := ValueOr(l.0, s.logPath), fs := l.1), LogPath, HrOf(l.0))
  }

  function StepCommandLine(s: RunState, c: Config): (r: RunState)
    ensures Failed(s.hr) ==> r == s
    ensures Succeeded(s.hr) ==> r.ran == s.ran + [Ran(CommandLine, r.hr)]
  {
    if Failed(s.hr) then s
    else
      var l := GetCommandLineSetting(MaxPath, c.commandLine);
      Record(s.(commandLine := ValueOr(l, s.commandLine)), CommandLine, HrOf(l))
  }

  function StepSectionVariables(s: RunState, c: Config, os: System): (r: RunState)
    requires EnvSection.Entries(c.section.entries)
    ensures Failed(s.hr) ==> r == s
    ensures Succeeded(s.hr) ==> r.ran == s.ran + [Ran(SectionVariables, r.hr)]
  {
    if Failed(s.hr) then s
    else
      var e := EnvSection.SetEnvironmentVariablesSpec(s.env, true, c.section, os.setSection);
      Record(s.(env := e.1), SectionVariables, e.0)
  }

  /** The working directory is read into the base path buffer; the working directory buffer is left as it was. */
  function StepWorkingDirectory(s: RunState, cfg: string, c: Config): (r: RunState)
    ensures Failed(s.hr) ==> r == s
    ensures Succeeded(s.hr) ==> r.ran == s.ran + [Ran(WorkingDirectory, r.hr)]
  {
    if Failed(s.hr) then s
    else
      var w := GetWorkingDirectory(MaxPath, cfg, c.workingDirectory);
      Record(s.(basePath := ValueOr(w, s.basePath)), WorkingDirectory, HrOf(w))
  }

  function StepLogFile(s: RunState, os: System): (r: RunState)
    ensures Failed(s.hr) ==> r == s
    ensures Succeeded(s.hr) ==> r.ran == s.ran + [Ran(LogFile, r.hr)]
  {
    if Failed(s.hr) then s
    else
      var o := OpenLogFile(true, os.logFile, os.logError);
      Record(s.(log := o.1), LogFile, o.0)
  }

  function StepChild(s: RunState, os: System): (r: RunState)
    ensures Failed(s.hr) ==> r == s
    ensures Succeeded(s.hr) ==> r.ran == s.ran + [Ran(Child, r.hr)]
  {
    if Failed(s.hr) then s
    else
      var x := ExecuteChildProcess(s.commandLine, s.workingDirectory, s.log, true, os.child);
      Record(s.(launched := x.1), Child, x.0)
  }

  /** Run's state before its first step: the HRESULT of the argument check and the allocations, and four zeroed buffers. */
  function Start(cfg: Option<string>, os: System, env: EnvSection.Environment, fs: Directories.FileSystem): (r: RunState)
    ensures r.ran == []
  {
    RunState(if cfg.None? then E_INVALIDARG else if os.memory then S_OK else E_OUTOFMEMORY,
      [], env, fs, "", "", "", "", NullHandle, None)
  }

  /** The first four steps: base directory, PHAKA_SERVICEW_BASEPATH, log path, command line. */
  function Prepare(s: RunState, p: string, c: Config, os: System): RunState
  {
    StepCommandLine(StepLogPath(StepBasePath(StepBaseDirectory(s, p), os.setBasePath), p, c), c)
  }

  /** The last four steps: section variables, working directory, log file, child. */
  function Execute(s: RunState, p: string, c: Config, os: System): RunState
    requires EnvSection.Entries(c.section.entries)
  {
    StepChild(StepLogFile(StepWorkingDirectory(StepSectionVariables(s, c, os), p, c), os), os)
  }

  /** Run: a NULL configuration path is E_INVALIDARG; otherwise the steps in order, each only while all before it succeeded. */
  function Run(cfg: Option<string>, c: Config, os: System, env: EnvSection.Environment, fs: Directories.FileSystem): (r: RunState)
    requires EnvSection.Entries(c.section.entries)
  {
    var start := Start(cfg, os, env, fs);
    if cfg.None? then start else Execute(Prepare(start, cfg.value, c, os), cfg.value, c, os)
  }

  /**
   * The first k steps have been considered: the steps taken are the first ones in
   * order, every one but the last succeeded, Run's HRESULT is the last one's, and
   * all k were taken if Run still succeeds.
   */
  predicate Chained(s: RunState, k: nat)
  {
    |s.ran| <= k <= |Steps|
    && (forall i :: 0 <= i < |s.ran| ==> s.ran[i].step == Steps[i])
    && (forall i :: 0 <= i < |s.ran| - 1 ==> Succeeded(s.ran[i].hr))
    && (|s.ran| > 0 ==> s.hr == s.ran[|s.ran| - 1].hr)
    && (Succeeded(s.hr) ==> |s.ran| == k)
  }

  /** A guarded step keeps the chain: it does nothing after a failure, and otherwise appends itself. */
  lemma Advance(s: RunState, t: RunState, k: nat)
    requires k < |Steps| && Chained(s, k)
    requires Failed(s.hr) ==> t == s
    requires Succeeded(s.hr) ==> t.ran == s.ran + [Ran(Steps[k], t.hr)]
    ensures Chained(t, k + 1)
  {
    if Succeeded(s.hr) {
      forall i | 0 <= i < |t.ran| - 1 ensures Succeeded(t.ran[i].hr) {
        if i < |s.ran| - 1 {
          assert t.ran[i] == s.ran[i];
        } else {
          assert |s.ran| > 0 ==> t.ran[i] == s.ran[|s.ran| - 1];
        }
      }
    }
  }

  lemma PrepareChained(s: RunState, p: string, c: Config, os: System)
    requires Chained(s, 0)
    ensures Chained(Prepare(s, p, c, os), 4)
  {
    var s1 := StepBaseDirectory(s, p);
    Advance(s, s1, 0);
    var s2 := StepBasePath(s1, os.setBasePath);
    Advance(s1, s2, 1);
    var s3 := StepLogPath(s2, p, c);
    LogPathChained(s2, p, c);
    Advance(s3, StepCommandLine(s3, c), 3);
  }

  lemma LogPathChained(s: RunState, p: string, c: Config)
    requires Chained(s, 2)
    ensures Chained(StepLogPath(s, p, c), 3)
  {
    Advance(s, StepLogPath(s, p, c), 2);
  }

  lemma ExecuteChained(s: RunState, p: string, c: Config, os: System)
    requires EnvSection.Entries(c.section.entries)
    requires Chained(s, 4)
    ensures Chained(Execute(s, p, c, os), 8)
  {
    var s5 := StepSectionVariables(s, c, os);
    SectionChained(s, c, os);
    var s6 := StepWorkingDirectory(s5, p, c);
    Advance(s5, s6, 5);
    var s7 := StepLogFile(s6, os);
    Advance(s6, s7, 6);
    Advance(s7, StepChild(s7, os), 7);
  }

  lemma SectionChained(s: RunState, c: Config, os: System)
    requires EnvSection.Entries(c.section.entries)
    requires Chained(s, 4)
    ensures Chained(StepSectionVariables(s, c, os), 5)
  {
    Advance(s, StepSectionVariables(s, c, os), 4);
  }

  /**
   * Run takes its steps in the fixed order and stops at the first failure: the steps
   * taken are a prefix of the eight, all but the last succeeded, Run returns the last
   * one's HRESULT, and it succeeds only when all eight ran. When no step ran, the
   * failure is the missing path or the allocation.
   */
  lemma RunFirstFailureWins(cfg: Option<string>, c: Config, os: System, env: EnvSection.Environment, fs: Directories.FileSystem)
    requires EnvSection.Entries(c.section.entries)
    ensures var r := Run(cfg, c, os, env, fs);
      |r.ran| <= |Steps|
      && (forall i :: 0 <= i < |r.ran| ==> r.ran[i].step == Steps[i])
      && (forall i :: 0 <= i < |r.ran| - 1 ==> Succeeded(r.ran[i].hr))
      && (|r.ran| > 0 ==> r.hr == r.ran[|r.ran| - 1].hr)
      && (Succeeded(r.hr) ==> |r.ran| == |Steps|)
      && (|r.ran| == 0 ==> r.hr == if cfg.None? then E_INVALIDARG else E_OUTOFMEMORY)
  {
    var start := Start(cfg, os, env, fs);
    if cfg.Some? {
      var s4 := Prepare(start, cfg.value, c, os);
      PrepareChained(start, cfg.value, c, os);
      ExecuteChained(s4, cfg.value, c, os);
      if |Run(cfg, c, os, env, fs).ran| == 0 {
        assert s4.ran == [];
      }
    }
  }

  /**
   * The child is launched with a NULL current directory whatever the working
   * directory setting: that setting is read into the base path buffer, and the
   * buffer passed to the launch is never filled. It runs the command line read
   * earlier and writes to the log file's handle.
   */
  lemma LaunchIgnoresWorkingDirectory(cfg: Option<string>, c: Config, os: System, env: EnvSection.Environment, fs: Directories.FileSystem)
    requires EnvSection.Entries(c.section.entries)
    ensures var r := Run(cfg, c, os, env, fs);
      r.launched.Some? ==>
        && r.launched.value.currentDirectory.None? && r.launched.value.inheritHandles
        && r.launched.value.commandLine == r.commandLine && r.launched.value.stdOutput == r.log
  {
    if cfg.Some? {
      var s4 := Prepare(Start(cfg, os, env, fs), cfg.value, c, os);
      assert s4.workingDirectory == "" && s4.launched.None?;
    }
  }

  /**
   * PHAKA_SERVICEW_BASEPATH is set to the configuration file's directory before the
   * section is applied: it keeps that value unless the section names it, and a section
   * entry that names it last decides its value.
   */
  lemma BasePathSetBeforeSection(p: string, c: Config, os: System, env: EnvSection.Environment, fs: Directories.FileSystem)
    requires EnvSection.Entries(c.section.entries) && c.section.entries != []
    requires Succeeded(Run(Some(p), c, os, env, fs).hr)
    ensures var r := Run(Some(p), c, os, env, fs);
      var sets := EnvSection.Assignments(c.section.entries, EnvSection.Zeros(EnvSection.TextSize));
      (BasePathVariable !in EnvSectionFacts.Names(sets) ==> BasePathVariable in r.env && r.env[BasePathVariable] == RemoveFileSpec(p))
      && (forall i :: 0 <= i < |sets| && sets[i].name == Some(BasePathVariable) && sets[i].value.Some?
            && (forall j :: i < j < |sets| ==> sets[j].name != Some(BasePathVariable))
            ==> BasePathVariable in r.env && r.env[BasePathVariable] == sets[i].value.value)
  {
    var start := Start(Some(p), os, env, fs);
    var s4 := Prepare(start, p, c, os);
    var s5 := StepSectionVariables(s4, c, os);
    assert Succeeded(s4.hr) && Succeeded(s5.hr) by {
      PrepareChained(start, p, c, os);
      ExecuteChained(s4, p, c, os);
    }
    assert s4.env == env[BasePathVariable := RemoveFileSpec(p)] by {
      BasePathInPrepare(start, p, c, os);
    }
    var sets := EnvSection.Assignments(c.section.entries, EnvSection.Zeros(EnvSection.TextSize));
    EnvSectionFacts.SectionMerges(s4.env, c.section, os.setSection);
    assert Run(Some(p), c, os, env, fs).env == EnvSection.Apply(s4.env, sets, 0, os.setSection).1;
    if BasePathVariable !in EnvSectionFacts.Names(sets) {
      EnvSectionFacts.ApplyKeepsOthers(s4.env, sets, 0, os.setSection, BasePathVariable);
    }
    forall i | 0 <= i < |sets| && sets[i].name == Some(BasePathVariable) && sets[i].value.Some?
      && (forall j :: i < j < |sets| ==> sets[j].name != Some(BasePathVariable))
      ensures BasePathVariable in Run(Some(p), c, os, env, fs).env
        && Run(Some(p), c, os, env, fs).env[BasePathVariable] == sets[i].value.value
    {
      EnvSectionFacts.ApplyLastWins(s4.env, sets, 0, os.setSection, i, BasePathVariable);
    }
  }

  /** When the first four steps succeed, the environment is the initial one with PHAKA_SERVICEW_BASEPATH set to the base directory. */
  lemma BasePathInPrepare(s: RunState, p: string, c: Config, os: System)
    requires Succeeded(Prepare(s, p, c, os).hr)
    ensures Prepare(s, p, c, os).env == s.env[BasePathVariable := RemoveFileSpec(p)]
  {
    var s1 := StepBaseDirectory(s, p);
    assert Succeeded(s1.hr) && s1.basePath == RemoveFileSpec(p);
  }
}
