/**
 * CreateDirectoryX: creating a directory together with every missing ancestor.
 *
 * The path is walked backslash by backslash. The first backslash (the one after a
 * drive such as "C:") is skipped, every longer prefix that ends just before a later
 * backslash is created in turn, and finally the whole path is created. A prefix
 * that already exists is not an error; any other failure ends the walk, yet the
 * whole path is still attempted and its failure, if any, is the one reported.
 *
 * The file system is a value: the paths that exist, and the error with which the
 * system refuses to create certain others (access denied, a missing drive, ...).
 */
module Directories {
  import opened Win32
  import opened Paths

  /**
   * _MAX_PATH. The prefix buffer holds that many characters, but the copy into it
   * is bounded by _MAX_PATH bytes, which admits fewer than half as many characters.
   */
  const MaxPath: nat := 260

  datatype FileSystem = FileSystem(existing: set<string>, refused: map<string, Win32Error>)

  /** What a CreateDirectory call reports, and the file system after it. */
  datatype Made = Made(error: Option<Win32Error>, after: FileSystem)

  /** The result of CreateDirectoryX: its HRESULT, the file system after it, and the directories it tried to create, in order. */
  datatype Outcome = Outcome(hr: HResult, fs: FileSystem, attempts: seq<string>)

  /** PathFileExists. */
  predicate Exists(fs: FileSystem, p: string) { p in fs.existing }

  /** CreateDirectory: an existing path is refused with ERROR_ALREADY_EXISTS, a refused one with its error; any other is created. */
  function CreateDirectory(fs: FileSystem, p: string): (m: Made)
    ensures m.error.None? <==> p !in fs.existing && p !in fs.refused
    ensures m.error.None? ==> m.after.existing == fs.existing + {p}
    ensures m.error.Some? ==> m.after == fs
    ensures p in fs.existing ==> m.error == Some(ERROR_ALREADY_EXISTS)
    ensures m.after.refused == fs.refused
  {
    if p in fs.existing then Made(Some(ERROR_ALREADY_EXISTS), fs)
    else if p in fs.refused then Made(Some(fs.refused[p]), fs)
    else Made(None, fs.(existing := fs.existing + {p}))
  }

  /** A CreateDirectory failure the wrapper treats as an error: anything but "already exists". */
  predicate Hard(error: Option<Win32Error>)
  {
    error.Some? && error.value != ERROR_ALREADY_EXISTS
  }

  /** The first backslash the walk stops at: the second backslash of the path, if any. */
  function FirstEnd(path: string): (r: Option<nat>)
    ensures r.Some? ==> r.value < |path| && path[r.value] == Backslash && Backslash in path[..r.value]
  {
    match FindFrom(path, Backslash, 0)
    case None => None
    case Some(b) =>
      var r := FindFrom(path, Backslash, b + 1);
      if r.Some? then assert path[..r.value][b] == Backslash; r else r
  }

  function NextEnd(path: string, e: nat): Option<nat>
    requires e < |path|
  {
    FindFrom(path, Backslash, e + 1)
  }

  /** The measure of a walk that stands at `end`. */
  function Left(path: string, end: Option<nat>): nat
  {
    if end.Some? && end.value < |path| then |path| - end.value else 0
  }

  /** The directories the walk from `end` creates when nothing goes wrong: each prefix ending just before a backslash. */
  function Prefixes(path: string, end: Option<nat>): seq<string>
    requires end.Some? ==> end.value < |path|
    decreases Left(path, end)
  {
    match end
    case None => []
    case Some(e) => [path[..e]] + Prefixes(path, NextEnd(path, e))
  }

  /**
   * The prefix loop from `end` on, having attempted `done` so far: copy the prefix
   * into the MAX_PATH buffer (a copy that does not fit ends the loop), create it,
   * and stop at the first hard failure.
   */
  function Walk(fs: FileSystem, path: string, end: Option<nat>, done: seq<string>): Outcome
    requires end.Some? ==> end.value < |path|
    decreases Left(path, end)
  {
    match end
    case None => Outcome(S_OK, fs, done)
    case Some(e) =>
      match CbCopyN(MaxPath, path, CharSize * e)
      case Err(hr) => Outcome(hr, fs, done)
      case Ok(prefix) =>
        var m := CreateDirectory(fs, prefix);
        if Hard(m.error) then Outcome(HResultFromWin32(m.error.value), fs, done + [prefix])
        else Walk(m.after, path, NextEnd(path, e), done + [prefix])
  }

  /** The prefix copy takes a prefix of fewer than _MAX_PATH / 2 characters, and refuses a longer one. */
  lemma CopyPrefix(path: string, e: nat)
    requires e < |path|
    ensures CbCopyN(MaxPath, path, CharSize * e)
      == if e < MaxPath / 2 then Ok(path[..e]) else Err(STRSAFE_E_INSUFFICIENT_BUFFER)
  {
    assert CharSize * e / CharSize == e;
  }

  /** CreateDirectoryX as a function of the file system; `memory` says whether the prefix buffer could be allocated. */
  function CreateDirectoryXSpec(fs: FileSystem, path: string, memory: bool): Outcome
  {
    if Exists(fs, path) then Outcome(S_OK, fs, [])
    else if !memory then Outcome(E_OUTOFMEMORY, fs, [])
    else
      var w := Walk(fs, path, FirstEnd(path), []);
      var m := CreateDirectory(w.fs, path);
      Outcome(if Hard(m.error) then HResultFromWin32(m.error.value) else w.hr, m.after, w.attempts + [path])
  }

  /** CreateDirectoryX, advancing a position through the path as the source does. */
  method CreateDirectoryX(fs: FileSystem, path: string, memory: bool) returns (hr: HResult, after: FileSystem, attempts: seq<string>)
    ensures Outcome(hr, after, attempts) == CreateDirectoryXSpec(fs, path, memory)
    ensures Exists(fs, path) ==> hr == S_OK && after == fs && attempts == []
  {
    if Exists(fs, path) {
      return S_OK, fs, [];
    }
    if !memory {
      return E_OUTOFMEMORY, fs, [];
    }
    var end: Option<nat> := FindFrom(path, Backslash, 0);
    if end.Some? {
      end := FindFrom(path, Backslash, end.value + 1);
    }
    hr, after, attempts := S_OK, fs, [];
    ghost var goal := Walk(fs, path, FirstEnd(path), []);
    while Succeeded(hr) && end.Some?
      invariant end.Some? ==> end.value < |path|
      invariant Succeeded(hr) ==> hr == S_OK && goal == Walk(after, path, end, attempts)
      invariant Failed(hr) ==> goal == Outcome(hr, after, attempts)
      decreases Left(path, end), Succeeded(hr)
    {
      hr, after, attempts, end := CreatePrefix(after, path, end.value, attempts);
    }
    var m := CreateDirectory(after, path);
    attempts := attempts + [path];
    if Hard(m.error) {
      hr := HResultFromWin32(m.error.value);
    }
    after := m.after;
  }

  /** One pass of the prefix loop: copy the prefix that ends at `e`, create it, and move to the next backslash. */
  method CreatePrefix(fs: FileSystem, path: string, e: nat, done: seq<string>)
    returns (hr: HResult, after: FileSystem, attempts: seq<string>, next: Option<nat>)
    requires e < |path|
    ensures next == NextEnd(path, e)
    ensures Succeeded(hr) ==> hr == S_OK && Walk(fs, path, Some(e), done) == Walk(after, path, next, attempts)
    ensures Failed(hr) ==> Walk(fs, path, Some(e), done) == Outcome(hr, after, attempts)
  {
    hr, after, attempts := S_OK, fs, done;
    var copied := CbCopyN(MaxPath, path, CharSize * e);
    if copied.Err? {
      hr := copied.hr;
    } else {
      var m := CreateDirectory(fs, copied.value);
      attempts := done + [copied.value];
      if Hard(m.error) {
        hr := HResultFromWin32(m.error.value);
        HResultFromWin32Fails(m.error.value);
      }
      after := m.after;
    }
    next := FindFrom(path, Backslash, e + 1);
  }

  // ---------------------------------------------------------------------------
  // Which prefixes are attempted

  /** Each prefix is the path cut just before a backslash at or after `end`. */
  lemma {:induction false} PrefixesForm(path: string, end: Option<nat>)
    requires end.Some? ==> end.value < |path| && path[end.value] == Backslash
    ensures forall i :: 0 <= i < |Prefixes(path, end)| ==>
      end.Some? && end.value <= |Prefixes(path, end)[i]| < |path|
      && Prefixes(path, end)[i] == path[..|Prefixes(path, end)[i]|] && path[|Prefixes(path, end)[i]|] == Backslash
    decreases Left(path, end)
  {
    match end
    case None =>
    case Some(e) =>
      var next := NextEnd(path, e);
      var ps := Prefixes(path, end);
      var rest := Prefixes(path, next);
      assert ps == [path[..e]] + rest;
      PrefixesForm(path, next);
      forall i | 0 < i < |ps|
        ensures e <= |ps[i]| < |path| && ps[i] == path[..|ps[i]|] && path[|ps[i]|] == Backslash
      {
        assert ps[i] == rest[i - 1];
      }
  }

  /** The prefixes come in strictly increasing length. */
  lemma {:induction false} PrefixesIncrease(path: string, end: Option<nat>)
    requires end.Some? ==> end.value < |path| && path[end.value] == Backslash
    ensures forall i, j :: 0 <= i < j < |Prefixes(path, end)| ==> |Prefixes(path, end)[i]| < |Prefixes(path, end)[j]|
    decreases Left(path, end)
  {
    match end
    case None =>
    case Some(e) =>
      var next := NextEnd(path, e);
      var ps := Prefixes(path, end);
      var rest := Prefixes(path, next);
      assert ps == [path[..e]] + rest;
      PrefixesForm(path, next);
      PrefixesIncrease(path, next);
      forall i, j | 0 <= i < j < |ps| ensures |ps[i]| < |ps[j]| {
        assert ps[j] == rest[j - 1];
        if i > 0 {
          assert ps[i] == rest[i - 1];
        }
      }
  }

  /** Every backslash at or after `end` ends a prefix. */
  lemma {:induction false} PrefixesComplete(path: string, end: Option<nat>)
    requires end.Some? ==> end.value < |path|
    ensures forall d :: end.Some? && end.value <= d < |path| && path[d] == Backslash ==> path[..d] in Prefixes(path, end)
    decreases Left(path, end)
  {
    match end
    case None =>
    case Some(e) =>
      var next := NextEnd(path, e);
      var ps := Prefixes(path, end);
      assert ps == [path[..e]] + Prefixes(path, next);
      PrefixesComplete(path, next);
      forall d | e < d < |path| && path[d] == Backslash ensures path[..d] in ps {
        assert next.Some? && next.value <= d;
      }
  }

  /** The prefixes the walk from the second backslash creates: exactly the path cut before each backslash that has another one in front of it. */
  lemma DirectoryPrefixes(path: string)
    ensures forall e :: 0 <= e < |path| ==>
      (path[..e] in Prefixes(path, FirstEnd(path)) <==> path[e] == Backslash && Backslash in path[..e])
    ensures forall i, j :: 0 <= i < j < |Prefixes(path, FirstEnd(path))| ==>
      |Prefixes(path, FirstEnd(path))[i]| < |Prefixes(path, FirstEnd(path))[j]|
  {
    var first := FirstEnd(path);
    var ps := Prefixes(path, first);
    PrefixesForm(path, first);
    PrefixesIncrease(path, first);
    PrefixesComplete(path, first);
    forall e | 0 <= e < |path| && path[e] == Backslash && Backslash in path[..e] ensures path[..e] in ps {
      var b :| 0 <= b < e && path[..e][b] == Backslash;
      assert path[b] == Backslash;
      var f := FindFrom(path, Backslash, 0);
      assert f.Some? && f.value <= b;
      assert first.Some? && first.value <= e;
    }
    forall e | 0 <= e < |path| && path[..e] in ps ensures path[e] == Backslash && Backslash in path[..e] {
      var i :| 0 <= i < |ps| && ps[i] == path[..e];
      assert |ps[i]| == e;
      assert first.Some?;
      assert path[..e][..first.value] == path[..first.value];
    }
  }

  // ---------------------------------------------------------------------------
  // What the walk does

  /** The walk attempts an initial run of the prefixes, in order; it succeeds only by attempting them all, and it never forgets a path or a refusal. */
  lemma {:induction false} WalkAttempts(fs: FileSystem, path: string, end: Option<nat>, done: seq<string>)
    requires end.Some? ==> end.value < |path|
    ensures var w := Walk(fs, path, end, done);
      done <= w.attempts && w.attempts[|done|..] <= Prefixes(path, end)
      && (Succeeded(w.hr) ==> w.hr == S_OK && w.attempts == done + Prefixes(path, end))
      && fs.existing <= w.fs.existing && w.fs.refused == fs.refused
    decreases Left(path, end)
  {
    match end
    case None =>
    case Some(e) =>
      var w := Walk(fs, path, end, done);
      var ps := Prefixes(path, end);
      match CbCopyN(MaxPath, path, CharSize * e)
      case Err(hr) =>
      case Ok(prefix) =>
        assert prefix == path[..e];
        var m := CreateDirectory(fs, prefix);
        if Hard(m.error) {
          assert w.attempts[|done|..] == [prefix];
          HResultFromWin32Fails(m.error.value);
        } else {
          var next := NextEnd(path, e);
          WalkAttempts(m.after, path, next, done + [prefix]);
          assert w.attempts[|done|..] == [prefix] + w.attempts[|done + [prefix]|..];
          assert ps == [prefix] + Prefixes(path, next);
        }
  }

  /** A prefix the walk gets past: short enough for the buffer, and either creatable or answered with "already exists". */
  predicate Harmless(fs: FileSystem, p: string)
  {
    |p| < MaxPath / 2 && (p in fs.existing || p !in fs.refused || fs.refused[p] == ERROR_ALREADY_EXISTS)
  }

  /** When every prefix is harmless the walk succeeds, attempts them all and leaves all of them existing. */
  lemma {:induction false} WalkCreatesAll(fs: FileSystem, path: string, end: Option<nat>, done: seq<string>)
    requires end.Some? ==> end.value < |path|
    requires forall i :: 0 <= i < |Prefixes(path, end)| ==> Harmless(fs, Prefixes(path, end)[i])
    ensures var w := Walk(fs, path, end, done);
      w.hr == S_OK && w.attempts == done + Prefixes(path, end)
      && w.fs.refused == fs.refused && fs.existing <= w.fs.existing
      && forall i :: 0 <= i < |Prefixes(path, end)| ==> Prefixes(path, end)[i] in w.fs.existing || Prefixes(path, end)[i] in fs.refused
    decreases Left(path, end)
  {
    match end
    case None =>
    case Some(e) =>
      var ps := Prefixes(path, end);
      var next := NextEnd(path, e);
      assert ps == [path[..e]] + Prefixes(path, next);
      assert Harmless(fs, ps[0]);
      var m := CreateDirectory(fs, path[..e]);
      forall i | 0 <= i < |Prefixes(path, next)| ensures Harmless(m.after, Prefixes(path, next)[i]) {
        assert Prefixes(path, next)[i] == ps[i + 1];
      }
      WalkCreatesAll(m.after, path, next, done + [path[..e]]);
      assert path[..e] in m.after.existing || path[..e] in fs.refused;
      assert forall i :: 0 < i < |ps| ==> ps[i] == Prefixes(path, next)[i - 1];
  }

  /** The directories a walk that stops at prefix `p` attempts last: `p` itself, unless it is too long to be copied. */
  function StopAttempts(p: string): seq<string>
  {
    if |p| < MaxPath / 2 then [p] else []
  }

  /** The HRESULT of a walk that stops at prefix `p`: the buffer error for a prefix too long to copy, else the error that refused `p`. */
  function StopCode(fs: FileSystem, p: string): (hr: HResult)
    requires !Harmless(fs, p)
    ensures Failed(hr)
  {
    if |p| < MaxPath / 2 then
      HResultFromWin32Fails(fs.refused[p]);
      HResultFromWin32(fs.refused[p])
    else STRSAFE_E_INSUFFICIENT_BUFFER
  }

  /** The k-th prefix comes after the first. */
  lemma HeadShorter(path: string, end: Option<nat>, k: nat)
    requires end.Some? ==> end.value < |path| && path[end.value] == Backslash
    requires 0 < k < |Prefixes(path, end)|
    ensures |Prefixes(path, end)[0]| < |Prefixes(path, end)[k]|
  {
    PrefixesIncrease(path, end);
  }

  /**
   * When the k-th prefix is the first one the walk cannot get past, the walk stops
   * there and fails: with the buffer error when the prefix is too long (it is then not
   * attempted), with the prefix's own error otherwise.
   */
  lemma {:induction false} WalkStopsAtFirstFailure(fs: FileSystem, path: string, end: Option<nat>, done: seq<string>, k: nat)
    requires end.Some? ==> end.value < |path| && path[end.value] == Backslash
    requires k < |Prefixes(path, end)|
    requires forall i :: 0 <= i < k ==> Harmless(fs, Prefixes(path, end)[i])
    requires !Harmless(fs, Prefixes(path, end)[k])
    ensures var w := Walk(fs, path, end, done);
      w.attempts == done + Prefixes(path, end)[..k] + StopAttempts(Prefixes(path, end)[k])
      && w.hr == StopCode(fs, Prefixes(path, end)[k])
    decreases Left(path, end)
  {
    var e := end.value;
    var ps := Prefixes(path, end);
    var next := NextEnd(path, e);
    assert ps == [path[..e]] + Prefixes(path, next);
    if k == 0 {
      assert ps[..0] == [];
      WalkFailsAtHead(fs, path, e, done);
    } else {
      assert Harmless(fs, ps[0]);
      WalkPassesHead(fs, path, e, done);
      var m := CreateDirectory(fs, path[..e]);
      var rest := Prefixes(path, next);
      forall i | 0 <= i < k - 1 ensures Harmless(m.after, rest[i]) {
        assert rest[i] == ps[i + 1];
      }
      assert rest[k - 1] == ps[k];
      HeadShorter(path, end, k);
      assert !Harmless(m.after, rest[k - 1]);
      WalkStopsAtFirstFailure(m.after, path, next, done + [path[..e]], k - 1);
      assert ps[..k] == [path[..e]] + rest[..k - 1];
    }
  }

  /** A walk whose next prefix is not harmless stops there. */
  lemma WalkFailsAtHead(fs: FileSystem, path: string, e: nat, done: seq<string>)
    requires e < |path| && !Harmless(fs, path[..e])
    ensures var w := Walk(fs, path, Some(e), done);
      w.attempts == done + StopAttempts(path[..e]) && w.hr == StopCode(fs, path[..e])
  {
    CopyPrefix(path, e);
    var p := path[..e];
    if |p| < MaxPath / 2 {
      assert Hard(CreateDirectory(fs, p).error);
    }
  }

  /** A walk whose next prefix is harmless goes on to the following one. */
  lemma WalkPassesHead(fs: FileSystem, path: string, e: nat, done: seq<string>)
    requires e < |path| && Harmless(fs, path[..e])
    ensures Walk(fs, path, Some(e), done)
      == Walk(CreateDirectory(fs, path[..e]).after, path, NextEnd(path, e), done + [path[..e]])
  {
    CopyPrefix(path, e);
  }

  // ---------------------------------------------------------------------------
  // What CreateDirectoryX does

  /**
   * Otherwise the attempts are an initial run of the directory prefixes followed by
   * the whole path, which is attempted whatever happened before it; and no path or
   * refusal is ever lost.
   */
  lemma WholePathAlwaysAttempted(fs: FileSystem, path: string)
    requires !Exists(fs, path)
    ensures var r := CreateDirectoryXSpec(fs, path, true);
      |r.attempts| > 0 && r.attempts[|r.attempts| - 1] == path
      && r.attempts[..|r.attempts| - 1] <= Prefixes(path, FirstEnd(path))
      && fs.existing <= r.fs.existing && r.fs.refused == fs.refused
  {
    var r := CreateDirectoryXSpec(fs, path, true);
    var w := Walk(fs, path, FirstEnd(path), []);
    WalkAttempts(fs, path, FirstEnd(path), []);
    assert r.attempts[..|r.attempts| - 1] == w.attempts;
  }

  /**
   * "Already exists" is never an error: when every prefix is harmless and the whole
   * path can be created, CreateDirectoryX succeeds, having attempted every prefix and
   * the path, all of which then exist.
   */
  lemma CreatesEveryAncestor(fs: FileSystem, path: string)
    requires !Exists(fs, path) && path !in fs.refused
    requires forall i :: 0 <= i < |Prefixes(path, FirstEnd(path))| ==> Harmless(fs, Prefixes(path, FirstEnd(path))[i])
    ensures var r := CreateDirectoryXSpec(fs, path, true);
      r.hr == S_OK && r.attempts == Prefixes(path, FirstEnd(path)) + [path]
      && path in r.fs.existing
      && forall d :: d in Prefixes(path, FirstEnd(path)) ==> d in r.fs.existing || d in fs.refused
  {
    var ps := Prefixes(path, FirstEnd(path));
    var w := Walk(fs, path, FirstEnd(path), []);
    WalkCreatesAll(fs, path, FirstEnd(path), []);
    var m := CreateDirectory(w.fs, path);
    assert !Hard(m.error);
    assert w.fs.existing <= m.after.existing;
    forall d | d in ps ensures d in m.after.existing || d in fs.refused {
      var i :| 0 <= i < |ps| && ps[i] == d;
    }
  }

  /**
   * A prefix that cannot be got past ends the walk, yet the whole path is still
   * attempted; its error wins if it has one, and otherwise the prefix's failure is reported.
   */
  lemma FailureStopsWalkNotWholePath(fs: FileSystem, path: string, k: nat)
    requires !Exists(fs, path)
    requires k < |Prefixes(path, FirstEnd(path))|
    requires forall i :: 0 <= i < k ==> Harmless(fs, Prefixes(path, FirstEnd(path))[i])
    requires !Harmless(fs, Prefixes(path, FirstEnd(path))[k])
    ensures var r := CreateDirectoryXSpec(fs, path, true);
      var ps := Prefixes(path, FirstEnd(path));
      r.attempts == ps[..k] + StopAttempts(ps[k]) + [path]
      && Failed(r.hr)
      && (path !in fs.refused ==> r.hr == StopCode(fs, ps[k]))
  {
    var w := Walk(fs, path, FirstEnd(path), []);
    WalkStopsAtFirstFailure(fs, path, FirstEnd(path), [], k);
    WalkAttempts(fs, path, FirstEnd(path), []);
    var m := CreateDirectory(w.fs, path);
    if Hard(m.error) {
      HResultFromWin32Fails(m.error.value);
    }
  }
}
