/**
 * What SetEnvironmentVariables does to the environment, proved about the model in
 * EnvSection: how one entry is read, that the walk is "parse every entry, then apply
 * the assignments in order", and what applying them does.
 */
module EnvSectionFacts {
  import opened Win32
  import opened Paths
  import opened EnvSection

  /**
   * One token call on text holding `skip` delimiters, then `w`, then a delimiter or a
   * terminator: the token is `w`, and a delimiter after it is overwritten.
   */
  lemma TokenAt(b: seq<char>, pos: nat, skip: nat, w: string)
    requires 0 < |w| && Equals !in w && NulFree(w)
    requires pos + skip + |w| < |b|
    requires forall i :: pos <= i < pos + skip ==> b[i] == Equals
    requires b[pos + skip..pos + skip + |w|] == w
    requires b[pos + skip + |w|] == Equals || b[pos + skip + |w|] == Nul
    ensures var end := pos + skip + |w|;
      StrTok(b, pos) == if b[end] == Equals then Tok(Some(w), b[end := Nul], end + 1) else Tok(Some(w), b, end)
  {
    var s, end := pos + skip, pos + skip + |w|;
    assert b[s] == w[0];
    assert SkipDelimiters(b, pos) == s;
    forall i | s <= i < end ensures b[i] != Equals && b[i] != Nul {
      assert b[i] == w[i - s];
    }
    assert TokenEnd(b, s) == end;
  }

  /** A string of delimiters only. */
  predicate AllEquals(s: string) { forall i :: 0 <= i < |s| ==> s[i] == Equals }

  /** Text that can be a token: non-empty, without "=" and without a terminator. */
  predicate Word(s: string) { 0 < |s| && Equals !in s && NulFree(s) }

  /**
   * An entry "==…name=value" followed, in the scratch buffer, by a terminator (nothing
   * inherited): leading "=" are dropped, the name is the first token and the value the
   * second, cut at its next "=" when `more` supplies one.
   */
  lemma ParseNameValue(buf: seq<char>, lead: string, name: string, value: string, more: string)
    requires AllEquals(lead) && Word(name) && Word(value) && NulFree(more)
    requires more == [] || more[0] == Equals
    requires |lead + name + [Equals] + value + more| < |buf|
    requires buf[|lead + name + [Equals] + value + more|] == Nul
    ensures Parse(Overwrite(buf, lead + name + [Equals] + value + more)).0 == Assignment(Some(name), Some(value))
  {
    var e := lead + name + [Equals] + value + more;
    var b := Overwrite(buf, e);
    var m := |lead| + |name|;
    var w := m + 1 + |value|;
    assert b == lead + name + [Equals] + value + more + buf[|e|..];
    assert b[|lead|..m] == name;
    assert b[m + 1..w] == value;
    assert b[w] == if more == [] then buf[|e|] else more[0];
    TwoTokens(b, |lead|, name, value);
  }

  /** The two token calls on delimiters, a name, one delimiter, a value and a delimiter or terminator. */
  lemma TwoTokens(b: seq<char>, skip: nat, name: string, value: string)
    requires Word(name) && Word(value)
    requires skip + |name| + 1 + |value| < |b|
    requires forall i :: 0 <= i < skip ==> b[i] == Equals
    requires b[skip..skip + |name|] == name && b[skip + |name|] == Equals
    requires b[skip + |name| + 1..skip + |name| + 1 + |value|] == value
    requires b[skip + |name| + 1 + |value|] == Equals || b[skip + |name| + 1 + |value|] == Nul
    ensures Parse(b).0 == Assignment(Some(name), Some(value))
  {
    var m := skip + |name|;
    TokenAt(b, 0, skip, name);
    var t1 := StrTok(b, 0);
    assert t1 == Tok(Some(name), b[m := Nul], m + 1);
    SecondToken(b, m, value);
  }

  /** After the name's delimiter at `m` is overwritten, the value is the next token. */
  lemma SecondToken(b: seq<char>, m: nat, value: string)
    requires Word(value)
    requires m + 1 + |value| < |b|
    requires b[m + 1..m + 1 + |value|] == value
    requires b[m + 1 + |value|] == Equals || b[m + 1 + |value|] == Nul
    ensures StrTok(b[m := Nul], m + 1).token == Some(value)
  {
    var b1 := b[m := Nul];
    assert b1[m + 1..m + 1 + |value|] == b[m + 1..m + 1 + |value|];
    TokenAt(b1, m + 1, 0, value);
  }

  /** An entry without "=" and with nothing inherited names a variable with a NULL value, so the variable is deleted. */
  lemma ParseNameOnly(buf: seq<char>, lead: string, name: string)
    requires AllEquals(lead) && Word(name)
    requires |lead + name| < |buf| && buf[|lead + name|] == Nul
    ensures Parse(Overwrite(buf, lead + name)).0 == Assignment(Some(name), None)
  {
    var e := lead + name;
    var b := Overwrite(buf, e);
    assert b == lead + name + buf[|e|..];
    assert b[|lead|..|e|] == name;
    TokenAt(b, 0, |lead|, name);
  }

  /**
   * The scratch buffer is never re-terminated: an entry copied over longer text is
   * read with that text's tail up to its terminator attached.
   */
  lemma TailInherited(buf: seq<char>, e: string)
    requires NulFree(e) && |e| < |buf|
    ensures CString(Overwrite(buf, e), 0) == e + CString(buf, |e|)
  {
    var b := Overwrite(buf, e);
    assert b == e + buf[|e|..];
    assert b[..|e|] == e;
    forall i | 0 <= i < |e| ensures b[i] != Nul { assert b[i] == e[i]; }
    CStringSplit(b, 0, |e|);
    CStringShift(b, buf, |e|);
  }

  /** The C string at `pos` depends only on the text from `pos` on. */
  lemma {:induction false} CStringShift(b: seq<char>, c: seq<char>, pos: nat)
    requires pos <= |b| == |c| && b[pos..] == c[pos..]
    ensures CString(b, pos) == CString(c, pos)
    decreases |b| - pos
  {
    if pos < |b| {
      assert b[pos] == b[pos..][0] && c[pos] == c[pos..][0];
      if b[pos] != Nul {
        assert b[pos + 1..] == b[pos..][1..];
        assert c[pos + 1..] == c[pos..][1..];
        CStringShift(b, c, pos + 1);
      }
    }
  }

  /** A C string that does not end before `mid` is the text up to `mid` followed by the C string from `mid`. */
  lemma {:induction false} CStringSplit(b: seq<char>, pos: nat, mid: nat)
    requires pos <= mid <= |b|
    requires forall i :: pos <= i < mid ==> b[i] != Nul
    ensures CString(b, pos) == b[pos..mid] + CString(b, mid)
    decreases mid - pos
  {
    if pos < mid {
      CStringSplit(b, pos + 1, mid);
      assert b[pos] != Nul;
      assert CString(b, pos) == [b[pos]] + CString(b, pos + 1);
      assert b[pos..mid] == [b[pos]] + b[pos + 1..mid];
      assert CString(b, pos) == [b[pos]] + (b[pos + 1..mid] + CString(b, mid));
    }
  }

  // ---------------------------------------------------------------------------
  // Setting the variables

  /** The walk is parsing every entry in turn and then applying the assignments. */
  lemma {:induction false} WalkIsParseThenApply(env: Environment, es: seq<string>, buf: seq<char>, call: nat, refusal: nat -> Option<Win32Error>)
    requires Entries(es) && |buf| == TextSize
    ensures Walk(env, es, buf, call, refusal) == Apply(env, Assignments(es, buf), call, refusal)
    decreases |es|
  {
    if es != [] {
      var p := Parse(Overwrite(buf, es[0]));
      var sets := Assignments(es, buf);
      assert sets[0] == p.0 && sets[1..] == Assignments(es[1..], p.1);
      match SetVariable(env, p.0, refusal(call))
      case Refused(_) =>
      case Done(env') => WalkIsParseThenApply(env', es[1..], p.1, call + 1, refusal);
    }
  }

  /** The variables an assignment sequence names. */
  function Names(sets: seq<Assignment>): set<string>
  {
    set i | 0 <= i < |sets| && sets[i].name.Some? :: sets[i].name.value
  }

  /** A call whose name is present and that the system does not refuse. */
  predicate Accepted(a: Assignment, refusal: Option<Win32Error>)
  {
    a.name.Some? && refusal.None?
  }

  /** Variables the section does not name keep their inherited values. */
  lemma {:induction false} ApplyKeepsOthers(env: Environment, sets: seq<Assignment>, call: nat, refusal: nat -> Option<Win32Error>, n: string)
    requires n !in Names(sets)
    ensures var env' := Apply(env, sets, call, refusal).1;
      (n in env' <==> n in env) && (n in env ==> env'[n] == env[n])
    decreases |sets|
  {
    if sets != [] {
      assert Names(sets[1..]) <= Names(sets) by {
        forall x | x in Names(sets[1..]) ensures x in Names(sets) {
          var i :| 0 <= i < |sets[1..]| && sets[1..][i].name.Some? && sets[1..][i].name.value == x;
          assert sets[i + 1] == sets[1..][i];
        }
      }
      match SetVariable(env, sets[0], refusal(call))
      case Refused(_) =>
      case Done(env') =>
        assert sets[0].name.value != n by {
          assert sets[0].name.Some? && sets[0].name.value in Names(sets);
        }
        ApplyKeepsOthers(env', sets[1..], call + 1, refusal, n);
    }
  }

  /** The walk succeeds exactly when every call names a variable and none is refused. */
  lemma {:induction false} ApplySucceeds(env: Environment, sets: seq<Assignment>, call: nat, refusal: nat -> Option<Win32Error>)
    ensures Succeeded(Apply(env, sets, call, refusal).0)
      <==> forall i :: 0 <= i < |sets| ==> Accepted(sets[i], refusal(call + i))
    decreases |sets|
  {
    if sets != [] {
      match SetVariable(env, sets[0], refusal(call))
      case Refused(error) =>
        HResultFromWin32Fails(error);
      case Done(env') =>
        ApplySucceeds(env', sets[1..], call + 1, refusal);
        assert forall i :: 0 < i < |sets| ==> sets[i] == sets[1..][i - 1];
        assert forall i :: 0 <= i < |sets| - 1 ==> sets[1..][i] == sets[i + 1];
    }
  }

  /**
   * The walk stops at the first call that fails: the later assignments have no
   * effect, and the HRESULT carries that call's error.
   */
  lemma {:induction false} ApplyStopsAtFirstRefusal(env: Environment, sets: seq<Assignment>, call: nat, refusal: nat -> Option<Win32Error>, k: nat)
    requires k < |sets|
    requires forall i :: 0 <= i < k ==> Accepted(sets[i], refusal(call + i))
    requires !Accepted(sets[k], refusal(call + k))
    ensures Apply(env, sets, call, refusal).1 == Apply(env, sets[..k], call, refusal).1
    ensures Apply(env, sets, call, refusal).0
      == HResultFromWin32(if sets[k].name.None? then ERROR_INVALID_PARAMETER else refusal(call + k).value)
    decreases k
  {
    if k > 0 {
      var env' := SetVariable(env, sets[0], refusal(call)).env;
      assert sets[1..][..k - 1] == sets[..k][1..];
      assert sets[..k][0] == sets[0];
      forall i | 0 <= i < k - 1 ensures Accepted(sets[1..][i], refusal(call + 1 + i)) {
        assert sets[1..][i] == sets[i + 1];
      }
      assert sets[1..][k - 1] == sets[k];
      ApplyStopsAtFirstRefusal(env', sets[1..], call + 1, refusal, k - 1);
    }
  }

  /**
   * A later entry wins: after a walk that succeeds, a variable holds the value of the
   * last assignment that names it, or is absent when that assignment has no value.
   */
  lemma {:induction false} ApplyLastWins(env: Environment, sets: seq<Assignment>, call: nat, refusal: nat -> Option<Win32Error>, i: nat, n: string)
    requires i < |sets| && sets[i].name == Some(n)
    requires forall j :: i < j < |sets| ==> sets[j].name != Some(n)
    requires Succeeded(Apply(env, sets, call, refusal).0)
    ensures var env' := Apply(env, sets, call, refusal).1;
      if sets[i].value.Some? then n in env' && env'[n] == sets[i].value.value else n !in env'
    decreases i
  {
    ApplySucceeds(env, sets, call, refusal);
    assert Accepted(sets[0], refusal(call));
    var env' := SetVariable(env, sets[0], refusal(call)).env;
    if i == 0 {
      assert n !in Names(sets[1..]) by {
        forall j | 0 <= j < |sets[1..]| ensures sets[1..][j].name != Some(n) {
          assert sets[1..][j] == sets[j + 1];
        }
      }
      ApplyKeepsOthers(env', sets[1..], call + 1, refusal, n);
    } else {
      forall j | i - 1 < j < |sets[1..]| ensures sets[1..][j].name != Some(n) {
        assert sets[1..][j] == sets[j + 1];
      }
      assert sets[1..][i - 1] == sets[i];
      ApplyLastWins(env', sets[1..], call + 1, refusal, i - 1, n);
    }
  }

  // ---------------------------------------------------------------------------
  // SetEnvironmentVariables as a whole

  /** An empty section sets nothing; reading it is an error only when GetLastError names one other than a missing file. */
  lemma EmptySectionSetsNothing(env: Environment, lastError: Dword, refusal: nat -> Option<Win32Error>)
    ensures var r := SetEnvironmentVariablesSpec(env, true, SectionRead([], lastError), refusal);
      r.1 == env
      && (Failed(r.0) <==> lastError != ERROR_FILE_NOT_FOUND && lastError != NO_ERROR)
  {
    FirstString([]);
    HResultFromWin32Fails(lastError);
  }

  /** A non-empty section is merged: the environment is the inherited one with the parsed assignments applied in order. */
  lemma SectionMerges(env: Environment, read: SectionRead, refusal: nat -> Option<Win32Error>)
    requires Entries(read.entries) && read.entries != []
    ensures SetEnvironmentVariablesSpec(env, true, read, refusal)
      == Apply(env, Assignments(read.entries, Zeros(TextSize)), 0, refusal)
  {
    FirstString(read.entries);
    assert 0 < |read.entries[0]|;
    WalkIsParseThenApply(env, read.entries, Zeros(TextSize), 0, refusal);
  }
}
