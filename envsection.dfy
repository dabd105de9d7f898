/**
 * SetEnvironmentVariables: merging the configuration file's [Environment] section
 * into the wrapper's own environment, so that the child inherits both.
 *
 * The section arrives as a block of NUL-terminated "name=value" entries closed by
 * an empty one. Each entry is copied into a MAX_PATH scratch buffer that is zeroed
 * once and never re-terminated, so an entry shorter than the text already in the
 * buffer is read with that text's tail attached. The buffer is then split with
 * _tcstok_s on "=": the first token is the name, the second the value. Leading
 * "=" are skipped, a value ends at its next "=", and an absent value deletes the
 * variable. The first failing SetEnvironmentVariable ends the walk.
 */
module EnvSection {
  import opened Win32
  import opened Paths

  /** pszText: _MAX_PATH characters. */
  const TextSize: nat := 260
  /** The section buffer's size in characters, passed again as a byte bound to StringCbLength. */
  const SectionSize: nat := 32767
  const Equals: char := '='
  const ERROR_INVALID_PARAMETER: Win32Error := 87

  type Environment = map<string, string>

  /** What GetPrivateProfileSection produced: the entries it copied, and GetLastError after it. */
  datatype SectionRead = SectionRead(entries: seq<string>, lastError: Dword)

  /** One SetEnvironmentVariable call: a name and a value, either of which may be NULL. */
  datatype Assignment = Assignment(name: Option<string>, value: Option<string>)

  /** A section line as the system returns it: non-empty, without a terminator, and short enough for pszText. */
  predicate Entry(e: string) { 0 < |e| < TextSize && NulFree(e) }

  predicate Entries(es: seq<string>) { forall i :: 0 <= i < |es| ==> Entry(es[i]) }

  /** The section buffer: each entry followed by its terminator, and a final terminator. */
  function Block(es: seq<string>): seq<char>
  {
    if es == [] then [Nul] else es[0] + [Nul] + Block(es[1..])
  }

  /** The zeroed scratch buffer LocalAlloc(LPTR, ...) returns. */
  function Zeros(n: nat): (r: seq<char>)
    ensures |r| == n && forall i :: 0 <= i < n ==> r[i] == Nul
  {
    seq(n, _ => Nul)
  }

  /** The scratch buffer after an entry is copied over its start and nothing else. */
  function Overwrite(buf: seq<char>, e: string): (r: seq<char>)
    requires |e| <= |buf|
    ensures |r| == |buf| && r[..|e|] == e && r[|e|..] == buf[|e|..]
  {
    e + buf[|e|..]
  }

  // ---------------------------------------------------------------------------
  // _tcstok_s with the delimiter "="

  function Peek(buf: seq<char>, i: nat): char
  {
    if i < |buf| then buf[i] else Nul
  }

  /** The C string that starts at `pos`: the characters up to the next terminator. */
  function CString(buf: seq<char>, pos: nat): (r: string)
    requires pos <= |buf|
    ensures pos + |r| <= |buf| && NulFree(r) && r == buf[pos..pos + |r|]
    ensures pos + |r| == |buf| || buf[pos + |r|] == Nul
    decreases |buf| - pos
  {
    if pos == |buf| || buf[pos] == Nul then []
    else
      var r := [buf[pos]] + CString(buf, pos + 1);
      assert buf[pos..pos + |r|] == [buf[pos]] + buf[pos + 1..pos + |r|];
      r
  }

  /** The first position at or after `pos` that is not a delimiter. */
  function SkipDelimiters(buf: seq<char>, pos: nat): (r: nat)
    requires pos <= |buf|
    ensures pos <= r <= |buf|
    ensures forall i :: pos <= i < r ==> buf[i] == Equals
    ensures r < |buf| ==> buf[r] != Equals
    decreases |buf| - pos
  {
    if pos < |buf| && buf[pos] == Equals then SkipDelimiters(buf, pos + 1) else pos
  }

  /** The first position at or after `pos` that holds a delimiter or a terminator. */
  function TokenEnd(buf: seq<char>, pos: nat): (r: nat)
    requires pos <= |buf|
    ensures pos <= r <= |buf|
    ensures forall i :: pos <= i < r ==> buf[i] != Equals && buf[i] != Nul
    ensures r < |buf| ==> buf[r] == Equals || buf[r] == Nul
    decreases |buf| - pos
  {
    if pos < |buf| && buf[pos] != Equals && buf[pos] != Nul then TokenEnd(buf, pos + 1) else pos
  }

  /** One _tcstok_s call: the token (NULL when none is left), the buffer with the delimiter after it overwritten by a terminator, and where the next call resumes. */
  datatype Tok = Tok(token: Option<string>, buf: seq<char>, next: nat)

  function StrTok(buf: seq<char>, pos: nat): (t: Tok)
    requires pos <= |buf|
    ensures |t.buf| == |buf| && pos <= t.next <= |buf|
    ensures t.token.Some? ==> 0 < |t.token.value| && Equals !in t.token.value && NulFree(t.token.value)
  {
    var s := SkipDelimiters(buf, pos);
    if Peek(buf, s) == Nul then Tok(None, buf, s)
    else
      var e := TokenEnd(buf, s);
      if Peek(buf, e) == Equals then Tok(Some(buf[s..e]), buf[e := Nul], e + 1)
      else Tok(Some(buf[s..e]), buf, e)
  }

  /** The two _tcstok_s calls on the scratch buffer: the assignment they yield and the buffer they leave. */
  function Parse(buf: seq<char>): (r: (Assignment, seq<char>))
    ensures |r.1| == |buf|
  {
    var t1 := StrTok(buf, 0);
    var t2 := StrTok(t1.buf, t1.next);
    (Assignment(t1.token, t2.token), t2.buf)
  }

  // ---------------------------------------------------------------------------
  // SetEnvironmentVariable

  datatype SetOutcome = Done(env: Environment) | Refused(error: Win32Error)

  /**
   * SetEnvironmentVariable: a NULL name is refused; otherwise `refusal` is the system's
   * answer, and on success a NULL value deletes the variable and any other sets it.
   */
  function SetVariable(env: Environment, a: Assignment, refusal: Option<Win32Error>): (r: SetOutcome)
    ensures r.Done? <==> a.name.Some? && refusal.None?
    ensures r.Done? && a.value.Some? ==> r.env == env[a.name.value := a.value.value]
    ensures r.Done? && a.value.None? ==> r.env == env - {a.name.value}
  {
    if a.name.None? then Refused(ERROR_INVALID_PARAMETER)
    else if refusal.Some? then Refused(refusal.value)
    else if a.value.None? then Done(env - {a.name.value})
    else Done(env[a.name.value := a.value.value])
  }

  /** The variables after the section's assignments, call by call, stopping at the first refusal. */
  function Apply(env: Environment, sets: seq<Assignment>, call: nat, refusal: nat -> Option<Win32Error>): (r: (HResult, Environment))
    decreases |sets|
  {
    if sets == [] then (S_OK, env)
    else match SetVariable(env, sets[0], refusal(call))
      case Refused(error) => (HResultFromWin32(error), env)
      case Done(env') => Apply(env', sets[1..], call + 1, refusal)
  }

  /** The assignments the entries yield, each read from the scratch buffer the previous ones left. */
  function Assignments(es: seq<string>, buf: seq<char>): (r: seq<Assignment>)
    requires Entries(es) && |buf| == TextSize
    ensures |r| == |es|
  {
    if es == [] then []
    else
      var p := Parse(Overwrite(buf, es[0]));
      [p.0] + Assignments(es[1..], p.1)
  }

  // ---------------------------------------------------------------------------
  // The walk over the section

  /** The walk from some entry on, with the scratch buffer as it stands: copy, split, set. */
  function Walk(env: Environment, es: seq<string>, buf: seq<char>, call: nat, refusal: nat -> Option<Win32Error>): (HResult, Environment)
    requires Entries(es) && |buf| == TextSize
    decreases |es|
  {
    if es == [] then (S_OK, env)
    else
      var p := Parse(Overwrite(buf, es[0]));
      match SetVariable(env, p.0, refusal(call))
      case Refused(error) => (HResultFromWin32(error), env)
      case Done(env') => Walk(env', es[1..], p.1, call + 1, refusal)
  }

  /** The HRESULT of the section read: a read of nothing fails unless the file is missing. */
  function ReadResult(read: SectionRead): HResult
  {
    if read.entries == [] && read.lastError != ERROR_FILE_NOT_FOUND then HResultFromWin32(read.lastError) else S_OK
  }

  /** SetEnvironmentVariables as a function of the environment, the section read and the system's answers. */
  function SetEnvironmentVariablesSpec(env: Environment, memory: bool, read: SectionRead, refusal: nat -> Option<Win32Error>): (HResult, Environment)
    requires Entries(read.entries)
  {
    if !memory then (E_OUTOFMEMORY, env)
    else if Failed(ReadResult(read)) then (ReadResult(read), env)
    else match CbLength(CString(Block(read.entries), 0), SectionSize)
      case Err(hr) => (hr, env)
      case Ok(length) =>
        if length == 0 then (S_OK, env)
        else Walk(env, read.entries, Zeros(TextSize), 0, refusal)
  }

  lemma BlockCons(es: seq<string>, k: nat)
    requires k < |es|
    ensures Block(es[k..]) == es[k] + [Nul] + Block(es[k + 1..])
  {
    assert es[k..][1..] == es[k + 1..];
  }

  /** The first C string of the block is the first entry, or empty for an empty section. */
  lemma FirstString(es: seq<string>)
    requires Entries(es)
    ensures CString(Block(es), 0) == if es == [] then [] else es[0]
  {
    if es != [] {
      var b := Block(es);
      var c := CString(b, 0);
      assert b[..|es[0]|] == es[0];
      assert b[|es[0]|] == Nul;
    }
  }

  /** One step of the walk: the entry at `k` is copied, split and set, and the walk goes on unless the set was refused. */
  lemma WalkStep(env: Environment, es: seq<string>, k: nat, buf: seq<char>, refusal: nat -> Option<Win32Error>)
    requires Entries(es) && |buf| == TextSize && k < |es|
    ensures var p := Parse(Overwrite(buf, es[k]));
      Walk(env, es[k..], buf, k, refusal)
      == match SetVariable(env, p.0, refusal(k))
         case Refused(error) => (HResultFromWin32(error), env)
         case Done(env') => Walk(env', es[k + 1..], p.1, k + 1, refusal)
  {
    assert es[k..][0] == es[k] && es[k..][1..] == es[k + 1..];
  }

  /** The inner loop: copy one entry, up to its terminator, over the start of the scratch buffer. */
  method CopyEntry(block: seq<char>, start: nat, text: array<char>, ghost e: string) returns (p: nat)
    requires start + |e| < |block| && block[start..start + |e|] == e && block[start + |e|] == Nul
    requires NulFree(e) && |e| <= text.Length
    modifies text
    ensures p == start + |e|
    ensures text[..] == Overwrite(old(text[..]), e)
  {
    ghost var before := text[..];
    p := start;
    var i := 0;
    while block[p] != Nul
      invariant 0 <= i <= |e| && p == start + i
      invariant forall j :: 0 <= j < i ==> text[j] == e[j]
      invariant forall j :: i <= j < text.Length ==> text[j] == before[j]
      decreases |e| - i
    {
      assert block[p] == e[i];
      text[i] := block[p];
      p := p + 1;
      i := i + 1;
    }
    assert text[..] == Overwrite(before, e);
  }

  /** The two _tcstok_s calls, writing their terminators into the scratch buffer. */
  method Split(text: array<char>) returns (a: Assignment)
    modifies text
    ensures (a, text[..]) == Parse(old(text[..]))
  {
    var parsed := Parse(text[..]);
    forall j | 0 <= j < text.Length {
      text[j] := parsed.1[j];
    }
    assert text[..] == parsed.1;
    a := parsed.0;
  }

  /** Where the k-th entry starts in the block. */
  function Offset(es: seq<string>, k: nat): nat
    requires k <= |es|
  {
    if k == 0 then 0 else Offset(es, k - 1) + |es[k - 1]| + 1
  }

  /** The block from the k-th entry's offset on holds the entries from k on. */
  lemma {:induction false} BlockFrom(es: seq<string>, k: nat)
    requires k <= |es|
    ensures Offset(es, k) < |Block(es)| && Block(es)[Offset(es, k)..] == Block(es[k..])
  {
    if k > 0 {
      BlockFrom(es, k - 1);
      BlockCons(es, k - 1);
      var rest := Block(es)[Offset(es, k - 1)..];
      assert Block(es)[Offset(es, k)..] == rest[|es[k - 1]| + 1..];
    }
  }

  /** What the walk finds at the k-th entry's offset: the entry and its terminator, or the final terminator. */
  lemma BlockAt(es: seq<string>, k: nat)
    requires Entries(es) && k <= |es|
    ensures var b, p := Block(es), Offset(es, k);
      p < |b| && (b[p] == Nul <==> k == |es|)
      && (k < |es| ==> p + |es[k]| < |b| && b[p..p + |es[k]|] == es[k] && b[p + |es[k]|] == Nul)
  {
    BlockFrom(es, k);
    if k < |es| {
      BlockCons(es, k);
      var rest := Block(es)[Offset(es, k)..];
      assert rest[..|es[k]|] == es[k];
      assert rest[0] == es[k][0];
    }
  }

  /** One entry: copy it into the scratch buffer and split it. */
  method ReadEntry(block: seq<char>, start: nat, text: array<char>, ghost e: string) returns (p: nat, a: Assignment)
    requires start + |e| < |block| && block[start..start + |e|] == e && block[start + |e|] == Nul
    requires NulFree(e) && |e| <= text.Length
    modifies text
    ensures p == start + |e|
    ensures (a, text[..]) == Parse(Overwrite(old(text[..]), e))
  {
    p := CopyEntry(block, start, text, e);
    a := Split(text);
  }

  /** One pass of the outer loop: copy, split and set the k-th entry. */
  method MergeEntry(env: Environment, block: seq<char>, ghost es: seq<string>, k: nat, p: nat, text: array<char>, refusal: nat -> Option<Win32Error>)
    returns (next: nat, outcome: SetOutcome)
    requires Entries(es) && block == Block(es) && k < |es| && p == Offset(es, k)
    requires text.Length == TextSize
    modifies text
    ensures next == Offset(es, k + 1)
    ensures outcome.Refused? ==> Walk(env, es[k..], old(text[..]), k, refusal) == (HResultFromWin32(outcome.error), env)
    ensures outcome.Done? ==> Walk(env, es[k..], old(text[..]), k, refusal) == Walk(outcome.env, es[k + 1..], text[..], k + 1, refusal)
  {
    BlockAt(es, k);
    WalkStep(env, es, k, text[..], refusal);
    var a;
    next, a := ReadEntry(block, p, text, es[k]);
    outcome := SetVariable(env, a, refusal(k));
    next := next + 1;
  }

  /** The nested loops over the section block, with a freshly zeroed scratch buffer. */
  method Merge(env0: Environment, block: seq<char>, ghost es: seq<string>, text: array<char>, refusal: nat -> Option<Win32Error>)
    returns (hr: HResult, env: Environment)
    requires Entries(es) && block == Block(es)
    requires text[..] == Zeros(TextSize)
    modifies text
    ensures (hr, env) == Walk(env0, es, Zeros(TextSize), 0, refusal)
  {
    hr, env := S_OK, env0;
    ghost var goal := Walk(env0, es, text[..], 0, refusal);
    var p := 0;
    var k := 0;
    BlockAt(es, 0);
    while block[p] != Nul
      invariant 0 <= k <= |es| && p == Offset(es, k) && p < |block|
      invariant block[p] == Nul <==> k == |es|
      invariant text.Length == TextSize
      invariant hr == S_OK && goal == Walk(env, es[k..], text[..], k, refusal)
      decreases |es| - k
    {
      var outcome;
      p, outcome := MergeEntry(env, block, es, k, p, text, refusal);
      if outcome.Refused? {
        hr := HResultFromWin32(outcome.error);
        break;
      }
      env := outcome.env;
      k := k + 1;
      BlockAt(es, k);
    }
  }

  /** SetEnvironmentVariables: the allocations, the section read and its length check, then the walk. */
  method SetEnvironmentVariables(env0: Environment, memory: bool, read: SectionRead, refusal: nat -> Option<Win32Error>)
    returns (hr: HResult, env: Environment)
    requires Entries(read.entries)
    ensures (hr, env) == SetEnvironmentVariablesSpec(env0, memory, read, refusal)
  {
    env := env0;
    if !memory {
      return E_OUTOFMEMORY, env;
    }
    hr := ReadResult(read);
    if Failed(hr) {
      return;
    }
    var block := Block(read.entries);
    var length := CbLength(CString(block, 0), SectionSize);
    if length.Err? {
      return length.hr, env;
    }
    if length.value == 0 {
      return;
    }
    var text := new char[TextSize](_ => Nul);
    assert text[..] == Zeros(TextSize);
    hr, env := Merge(env0, block, read.entries, text, refusal);
  }
}
