/**
 * `copy_parent_directory`: writes the directory part of a path (everything before its last
 * separator that is not escaped by a backslash) as a C string into a caller's buffer of
 * `dstLen` characters, or "." when the path has no directory part.
 */
module FilesystemUtils {
  import opened Wrappers
  import opened StackStrings

  /** Position `i` holds a separator that the character before it does not escape. */
  predicate IsUnescapedSeparator(path: seq<char>, i: nat)
    requires 1 <= i < |path|
  {
    path[i] == '/' && path[i - 1] != '\\'
  }

  /** The backward scan over positions `i` down to 1 (position 0 is never inspected). */
  function LastSeparatorUpTo(path: seq<char>, i: nat): (r: Option<nat>)
    requires i < |path|
    ensures r.Some? ==> 1 <= r.value <= i && IsUnescapedSeparator(path, r.value)
    ensures r.Some? ==> forall j :: r.value < j <= i ==> !IsUnescapedSeparator(path, j)
    ensures r.None? ==> forall j :: 1 <= j <= i ==> !IsUnescapedSeparator(path, j)
  {
    if i == 0 then None
    else if IsUnescapedSeparator(path, i) then Some(i)
    else LastSeparatorUpTo(path, i - 1)
  }

  function LastSeparator(path: seq<char>): Option<nat>
    requires |path| > 0
  {
    LastSeparatorUpTo(path, |path| - 1)
  }

  /** The parent directory the function is meant to produce. */
  function ParentOf(path: seq<char>): seq<char>
    requires |path| > 0
  {
    match LastSeparator(path)
    case None => "."
    case Some(i) => path[..i]
  }

  /** `std::strncpy(dst, src, n)` for a source without NUL: the first `n` characters become the
      source's, padded with NULs; the rest of the buffer is untouched. */
  function StrNCpy(before: seq<char>, src: seq<char>, n: nat): (r: seq<char>)
    requires n <= |before|
    ensures |r| == |before| && r[n..] == before[n..]
  {
    seq(|before|, k requires 0 <= k < |before| => if k < n then (if k < |src| then src[k] else '\0') else before[k])
  }

  /** A source shorter than `n` is copied with its terminator. */
  lemma StrNCpyTerminates(before: seq<char>, src: seq<char>, n: nat)
    requires |src| < n <= |before| && '\0' !in src
    ensures CStr(StrNCpy(before, src, n)) == src
  {
    var r := StrNCpy(before, src, n);
    assert r[..|src|] == src;
    CStrEndsAtFirstNul(r, |src|);
  }

  method StrNCpyInto(dst: array<char>, src: seq<char>, n: nat)
    requires n <= dst.Length
    modifies dst
    ensures dst[..] == StrNCpy(old(dst[..]), src, n)
  {
    ghost var before := dst[..];
    var k := 0;
    while k < n
      invariant k <= n
      invariant dst[..] == StrNCpy(before, src, k)
    {
      dst[k] := if k < |src| then src[k] else '\0';
      k := k + 1;
    }
  }

  /** `copy_to_char` after the scan, as the source computes it: the index before the
      separator, and 0 when there is none. */
  function CopyToChar(path: seq<char>): nat
    requires |path| > 0
  {
    match LastSeparator(path)
    case None => 0
    case Some(i) => i - 1
  }

  /** `copy_parent_directory` as written: the result and the new buffer contents. A separator
      at index 1 gives `copy_to_char == 0`, which the source takes for "no separator". */
  function ParentAsWritten(path: seq<char>, before: seq<char>, dstLen: nat): (r: (bool, seq<char>))
    requires |path| > 0 && dstLen <= |before|
    ensures |r.1| == |before| && r.1[dstLen..] == before[dstLen..]
  {
    if dstLen < 2 then (false, before)
    else
      var dotted := StrNCpy(before, ".", dstLen);
      var c := CopyToChar(path);
      if c == 0 then (true, dotted)
      else if dstLen <= c + 1 then (false, dotted)
      else (true, StrNCpy(dotted, path, c + 1))
  }

  /** `copy_parent_directory` as intended: the test for "no separator" looks at the scan's
      outcome rather than at `copy_to_char`. */
  function Parent(path: seq<char>, before: seq<char>, dstLen: nat): (r: (bool, seq<char>))
    requires |path| > 0 && dstLen <= |before|
    ensures |r.1| == |before| && r.1[dstLen..] == before[dstLen..]
  {
    if dstLen < 2 then (false, before)
    else
      var dotted := StrNCpy(before, ".", dstLen);
      match LastSeparator(path)
      case None => (true, dotted)
      case Some(i) => if dstLen <= i then (false, dotted) else (true, StrNCpy(dotted, path, i))
  }

  /**
   * The corrected function succeeds exactly when the buffer holds at least two characters and
   * the parent with its terminator fits, and then the buffer holds the parent directory as a
   * C string.
   */
  lemma ParentIsWritten(path: seq<char>, before: seq<char>, dstLen: nat)
    requires |path| > 0 && dstLen <= |before| && '\0' !in path
    ensures var (ok, after) := Parent(path, before, dstLen);
              (ok <==> 2 <= dstLen && |ParentOf(path)| < dstLen) &&
              (ok ==> CStr(after[..dstLen]) == ParentOf(path))
  {
    var (ok, after) := Parent(path, before, dstLen);
    if dstLen >= 2 {
      var dotted := StrNCpy(before, ".", dstLen);
      match LastSeparator(path)
      case None =>
        StrNCpyTerminates(before[..dstLen], ".", dstLen);
        assert StrNCpy(before[..dstLen], ".", dstLen) == dotted[..dstLen];
      case Some(i) =>
        if i < dstLen {
          assert after[..i] == path[..i];
          assert after[i] == '\0';
          assert '\0' !in after[..dstLen][..i] by {
            assert after[..dstLen][..i] == path[..i];
            assert forall k :: 0 <= k < i ==> path[..i][k] == path[k];
          }
          CStrEndsAtFirstNul(after[..dstLen], i);
        }
    }
  }

  /** The written directory followed by the separator starts the path, and no unescaped
      separator comes after it. */
  lemma ParentPrecedesLastSeparator(path: seq<char>)
    requires |path| > 0 && LastSeparator(path).Some?
    ensures var i := LastSeparator(path).value;
              path[..i + 1] == ParentOf(path) + ['/'] &&
              forall j :: i < j < |path| ==> !IsUnescapedSeparator(path, j)
  {
  }

  /** The code as written and the corrected code differ only when the last separator is at
      index 1. */
  lemma AsWrittenDiffersOnlyAtIndexOne(path: seq<char>, before: seq<char>, dstLen: nat)
    requires |path| > 0 && dstLen <= |before| && LastSeparator(path) != Some(1)
    ensures ParentAsWritten(path, before, dstLen) == Parent(path, before, dstLen)
  {
  }

  /** "a/b": the parent is "a", but the code as written reports ".". */
  lemma AsWrittenLosesOneCharacterParent()
    ensures ParentOf("a/b") == "a"
    ensures ParentAsWritten("a/b", "xxxx", 4).0 && CStr(ParentAsWritten("a/b", "xxxx", 4).1) == "."
    ensures Parent("a/b", "xxxx", 4).0 && CStr(Parent("a/b", "xxxx", 4).1) == "a"
  {
    assert IsUnescapedSeparator("a/b", 1);
    assert LastSeparator("a/b") == Some(1);
    var dotted := StrNCpy("xxxx", ".", 4);
    assert dotted == ".\0\0\0";
    assert StrNCpy(dotted, "a/b", 1) == "a\0\0\0";
  }

  /** `copy_parent_directory` as the source writes it; the buffer is at least `dstLen` long. */
  method CopyParentDirectoryAsWritten(path: seq<char>, dst: array<char>, dstLen: nat) returns (ok: bool)
    requires |path| > 0 && dstLen <= dst.Length
    modifies dst
    ensures (ok, dst[..]) == ParentAsWritten(path, old(dst[..]), dstLen)
  {
    if dstLen < 2 {
      return false;
    }
    StrNCpyInto(dst, ".", dstLen);
    var copyToChar := 0;
    var i: nat := |path| - 1;
    while i > 0
      invariant i < |path|
      invariant LastSeparator(path) == LastSeparatorUpTo(path, i)
    {
      if path[i] == '/' && path[i - 1] != '\\' {
        copyToChar := i - 1;
        break;
      }
      i := i - 1;
    }
    if copyToChar == 0 {
      return true;
    }
    if dstLen <= copyToChar + 1 {
      return false;
    }
    StrNCpyInto(dst, path, copyToChar + 1);
    ok := true;
  }

  /** The corrected `copy_parent_directory`. */
  method CopyParentDirectory(path: seq<char>, dst: array<char>, dstLen: nat) returns (ok: bool)
    requires |path| > 0 && dstLen <= dst.Length
    modifies dst
    ensures (ok, dst[..]) == Parent(path, old(dst[..]), dstLen)
  {
    if dstLen < 2 {
      return false;
    }
    StrNCpyInto(dst, ".", dstLen);
    var separator: Option<nat> := None;
    var i: nat := |path| - 1;
    while i > 0
      invariant i < |path|
      invariant LastSeparator(path) == LastSeparatorUpTo(path, i)
    {
      if path[i] == '/' && path[i - 1] != '\\' {
        separator := Some(i);
        break;
      }
      i := i - 1;
    }
    if separator.None? {
      return true;
    }
    if dstLen <= separator.value {
      return false;
    }
    StrNCpyInto(dst, path, separator.value);
    ok := true;
  }
}
