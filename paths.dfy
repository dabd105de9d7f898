/**
 * The string and path helpers the wrapper calls: the bounded copies and length
 * checks of <strsafe.h> and small definitions of the PathCch* / Path* helpers of
 * the shell path API. The path helpers are given simple definitions over
 * backslash-separated strings, not the library's full behaviour (UNC prefixes,
 * "\\?\" long paths, "." and ".." are not interpreted).
 *
 * The wrapper is built with UNICODE, so a TCHAR is two bytes: a bound passed to a
 * StringCb* function counts bytes and admits half as many characters.
 */
module Paths {
  import opened Win32

  const Backslash: char := '\\'
  const Dot: char := '.'
  const Nul: char := '\0'
  const CharSize: nat := 2

  /** A C string: no embedded terminator. */
  predicate NulFree(s: string) { Nul !in s }

  // ---------------------------------------------------------------------------
  // <strsafe.h>

  /** StringCchCopy(dest, cchDest, src): the whole source and its terminator must fit. */
  function CchCopy(cchDest: nat, src: string): (r: Result<string>)
    ensures r.Ok? <==> 0 < cchDest && |src| < cchDest
    ensures r.Ok? ==> r.value == src
  {
    if cchDest == 0 then Err(STRSAFE_E_INVALID_PARAMETER)
    else if |src| < cchDest then Ok(src)
    else Err(STRSAFE_E_INSUFFICIENT_BUFFER)
  }

  /** StringCbCopy(dest, cbDest, src): as CchCopy with a bound in bytes. */
  function CbCopy(cbDest: nat, src: string): (r: Result<string>)
    ensures r.Ok? <==> CharSize <= cbDest && (|src| + 1) * CharSize <= cbDest
    ensures r.Ok? ==> r.value == src
  {
    CchCopy(cbDest / CharSize, src)
  }

  /**
   * StringCbCopyN(dest, cbDest, src, cbToCopy): copies at most cbToCopy bytes of the
   * source; the copied characters and a terminator must fit in cbDest bytes.
   */
  function CbCopyN(cbDest: nat, src: string, cbToCopy: nat): (r: Result<string>)
    ensures r.Ok? ==> |r.value| <= |src| && |r.value| < cbDest / CharSize && src[..|r.value|] == r.value
    ensures r.Ok? <==> CharSize <= cbDest && (cbToCopy / CharSize < cbDest / CharSize || |src| < cbDest / CharSize)
    ensures r.Ok? && cbToCopy / CharSize <= |src| ==> |r.value| == cbToCopy / CharSize
  {
    var n := if cbToCopy / CharSize < |src| then cbToCopy / CharSize else |src|;
    if cbDest / CharSize == 0 then Err(STRSAFE_E_INVALID_PARAMETER)
    else if n < cbDest / CharSize then Ok(src[..n])
    else Err(STRSAFE_E_INSUFFICIENT_BUFFER)
  }

  /** StringCchLength(s, cchMax): the terminator must lie within the first cchMax characters. */
  function CchLength(s: string, cchMax: nat): (r: Result<nat>)
    ensures r.Ok? <==> |s| < cchMax
    ensures r.Ok? ==> r.value == |s|
  {
    if |s| < cchMax then Ok(|s|) else Err(STRSAFE_E_INVALID_PARAMETER)
  }

  /** StringCbLength(s, cbMax): as CchLength with a bound in bytes; the length is in bytes too. */
  function CbLength(s: string, cbMax: nat): (r: Result<nat>)
    ensures r.Ok? <==> |s| < cbMax / CharSize
    ensures r.Ok? ==> r.value == |s| * CharSize
  {
    if |s| < cbMax / CharSize then Ok(|s| * CharSize) else Err(STRSAFE_E_INVALID_PARAMETER)
  }

  // ---------------------------------------------------------------------------
  // Searching

  /** The position of the last occurrence of `c` in `s`. */
  function LastIndex(s: string, c: char): (r: Option<nat>)
    ensures r.Some? ==> r.value < |s| && s[r.value] == c
    ensures r.Some? ==> forall j :: r.value < j < |s| ==> s[j] != c
    ensures r.None? <==> c !in s
  {
    if |s| == 0 then None
    else if s[|s| - 1] == c then Some(|s| - 1)
    else
      var r := LastIndex(s[..|s| - 1], c);
      assert s == s[..|s| - 1] + [s[|s| - 1]];
      r
  }

  /** Appending text that does not contain `c` leaves its last occurrence where it was. */
  lemma {:induction false} LastIndexAppendWithout(a: string, b: string, c: char)
    requires c !in b
    ensures LastIndex(a + b, c) == LastIndex(a, c)
  {
    var r, q := LastIndex(a + b, c), LastIndex(a, c);
    forall j | |a| <= j < |a + b| ensures (a + b)[j] != c {
      assert (a + b)[j] == b[j - |a|];
    }
    if r.Some? {
      assert r.value < |a|;
      assert a[r.value] == c by { assert (a + b)[r.value] == a[r.value]; }
      assert q.Some?;
      assert (a + b)[q.value] == a[q.value];
    } else {
      assert c !in a by {
        forall j | 0 <= j < |a| ensures a[j] != c { assert (a + b)[j] == a[j]; }
      }
    }
  }

  /** The first occurrence of `c` in `s` at or after `from`: the C library's _tcschr. */
  function FindFrom(s: string, c: char, from: nat): (r: Option<nat>)
    requires from <= |s|
    ensures r.Some? ==> from <= r.value < |s| && s[r.value] == c
    ensures r.Some? ==> forall j :: from <= j < r.value ==> s[j] != c
    ensures r.None? ==> forall j :: from <= j < |s| ==> s[j] != c
    decreases |s| - from
  {
    if from == |s| then None
    else if s[from] == c then Some(from)
    else FindFrom(s, c, from + 1)
  }

  // ---------------------------------------------------------------------------
  // Path helpers

  /** Where the final path component starts. */
  function FileNameStart(p: string): (r: nat)
    ensures r <= |p|
    ensures Backslash !in p[r..]
  {
    match LastIndex(p, Backslash)
    case None => 0
    case Some(i) => i + 1
  }

  /** PathStripPath: the final path component. */
  function StripPath(p: string): (r: string)
    ensures Backslash !in r
    ensures |r| <= |p| && r == p[|p| - |r|..]
  {
    p[FileNameStart(p)..]
  }

  /** Where the extension starts: the last dot of the final component, or the end of the path. */
  function ExtensionStart(p: string): (r: nat)
    ensures FileNameStart(p) <= r <= |p|
    ensures r < |p| ==> p[r] == Dot && Dot !in p[r + 1..]
    ensures r == |p| ==> Dot !in p[FileNameStart(p)..]
  {
    var f := FileNameStart(p);
    match LastIndex(p[f..], Dot)
    case None => |p|
    case Some(d) =>
      assert p[f..][..d] == p[f..f + d];
      f + d
  }

  /** PathFindExtension: the extension with its dot, or "" when there is none. */
  function Extension(p: string): string
  {
    p[ExtensionStart(p)..]
  }

  /** PathRemoveExtension. */
  function RemoveExtension(p: string): (r: string)
    ensures r + Extension(p) == p
  {
    p[..ExtensionStart(p)]
  }

  /** PathCchRenameExtension: the path without its extension, followed by `ext` (a dot is added when missing). */
  function RenameExtension(p: string, ext: string): (r: string)
  {
    RemoveExtension(p) + (if |ext| > 0 && ext[0] == Dot then ext else [Dot] + ext)
  }

  /** A drive prefix such as "C:". */
  predicate IsDrive(p: string) { |p| == 2 && p[1] == ':' }

  /**
   * PathCchRemoveFileSpec: drops the final component and the backslash before it,
   * keeping a drive root such as "C:\"; a path without a backslash becomes "".
   */
  function RemoveFileSpec(p: string): (r: string)
    ensures |r| <= |p| && r == p[..|r|]
  {
    match LastIndex(p, Backslash)
    case None => ""
    case Some(i) => if IsDrive(p[..i]) then p[..i + 1] else p[..i]
  }

  /** PathIsRelative: neither rooted by a backslash nor by a drive letter. */
  predicate IsRelative(p: string)
  {
    !(|p| > 0 && p[0] == Backslash) && !(|p| > 1 && p[1] == ':')
  }

  /** PathCchAppend for a relative `more`: the two joined by exactly one backslash. */
  function Append(base: string, more: string): (r: string)
    ensures |base| <= |r|
  {
    if base == [] then more
    else if base[|base| - 1] == Backslash then base + more
    else base + [Backslash] + more
  }

  /** A PathCch* result must fit, with its terminator, in the destination's `cch` characters. */
  function Fit(cch: nat, s: string): (r: Result<string>)
    ensures r.Ok? <==> |s| < cch
    ensures r.Ok? ==> r.value == s
  {
    if |s| < cch then Ok(s) else Err(STRSAFE_E_INSUFFICIENT_BUFFER)
  }

  // ---------------------------------------------------------------------------
  // How the helpers fit together

  /** Removing the file spec undoes appending a single component to a directory. */
  lemma AppendThenRemoveFileSpec(dir: string, name: string)
    requires dir != [] && dir[|dir| - 1] != Backslash && !IsDrive(dir)
    requires Backslash !in name
    ensures RemoveFileSpec(Append(dir, name)) == dir
  {
    var p := Append(dir, name);
    assert p == (dir + [Backslash]) + name;
    LastIndexAppendWithout(dir + [Backslash], name, Backslash);
    assert LastIndex(p, Backslash) == Some(|dir|);
    assert p[..|dir|] == dir;
  }

  /** Stripping the path of an appended component gives back the component. */
  lemma AppendThenStripPath(dir: string, name: string)
    requires dir != []
    requires Backslash !in name
    ensures StripPath(Append(dir, name)) == name
  {
    var p := Append(dir, name);
    var head := if dir[|dir| - 1] == Backslash then dir else dir + [Backslash];
    assert p == head + name;
    LastIndexAppendWithout(head, name, Backslash);
    assert LastIndex(head, Backslash) == Some(|head| - 1);
  }

  /** Appending text without a backslash keeps the final component's start. */
  lemma FileNameStartAppend(a: string, b: string)
    requires Backslash !in b
    ensures FileNameStart(a + b) == FileNameStart(a)
  {
    LastIndexAppendWithout(a, b, Backslash);
  }

  /** The stem of a path ends where its extension starts, and its final component starts where the path's does. */
  lemma StemFileNameStart(p: string)
    ensures FileNameStart(RemoveExtension(p)) == FileNameStart(p)
  {
    var e := ExtensionStart(p);
    var f := FileNameStart(p);
    assert Backslash !in p[e..] by {
      assert p[e..] == p[f..][e - f..];
    }
    FileNameStartAppend(p[..e], p[e..]);
    assert p[..e] + p[e..] == p;
  }

  /** Renaming to an extension that is a dot and a plain suffix yields exactly that extension, and the stem is kept. */
  lemma {:induction false} RenameExtensionSetsExtension(p: string, ext: string)
    requires |ext| > 0 && ext[0] == Dot
    requires Dot !in ext[1..] && Backslash !in ext
    ensures Extension(RenameExtension(p, ext)) == ext
    ensures RemoveExtension(RenameExtension(p, ext)) == RemoveExtension(p)
  {
    var stem := RemoveExtension(p);
    var q := stem + ext;
    assert RenameExtension(p, ext) == q;
    StemFileNameStart(p);
    FileNameStartAppend(stem, ext);
    var f := FileNameStart(q);
    // the last dot of q's final component is the first character of ext
    assert q[f..] == (stem[f..] + [Dot]) + ext[1..];
    LastIndexAppendWithout(stem[f..] + [Dot], ext[1..], Dot);
    assert ExtensionStart(q) == |stem|;
  }
}
