/**
 * `BasicStackString<Size>`: a NUL-terminated character string stored in a fixed array of
 * `Size` characters, and the bounded `safe_strlen` it is measured with.
 */
module StackStrings {
  import opened Algorithms
  /** The characters of `s` before its first NUL: what a C string denotes. */
  function CStr(s: seq<char>): (r: seq<char>)
    ensures |r| <= |s| && r == s[..|r|]
    ensures '\0' !in r
  {
    if s == [] || s[0] == '\0' then [] else [s[0]] + CStr(s[1..])
  }

  /** A prefix free of NUL that ends at a NUL, or at the end, is the C string. */
  lemma {:induction false} CStrEndsAtFirstNul(s: seq<char>, n: nat)
    requires n <= |s| && '\0' !in s[..n]
    requires n < |s| ==> s[n] == '\0'
    ensures CStr(s) == s[..n]
  {
    if n > 0 {
      assert s[0] in s[..n];
      CStrEndsAtFirstNul(s[1..], n - 1);
      assert s[1..][..n - 1] == s[1..n];
      assert s[..n] == [s[0]] + s[1..n];
    }
  }

  /**
   * `safe_strlen(data, maxLength)`: the index of the first NUL among the first `maxLength`
   * characters, or `maxLength` when there is none. The characters it inspects must exist:
   * either `maxLength` of them or a NUL before the end.
   */
  method SafeStrlen(data: seq<char>, maxLength: nat) returns (n: nat)
    requires maxLength <= |data| || '\0' in data
    ensures n <= maxLength && n <= |data|
    ensures forall i :: 0 <= i < n ==> data[i] != '\0'
    ensures n < maxLength ==> data[n] == '\0'
  {
    var i := 0;
    while i < maxLength
      invariant i <= maxLength && i <= |data|
      invariant forall j :: 0 <= j < i ==> data[j] != '\0'
    {
      if data[i] == '\0' {
        return i;
      }
      i := i + 1;
    }
    return maxLength;
  }

  class StackString {
    /** The template parameter `Size`, the capacity including the terminator. */
    const Size: nat
    const data: array<char>

    ghost predicate Valid()
      reads this
    {
      data.Length == Size && Size >= 1
    }

    /** The string the array currently denotes. */
    ghost function View(): seq<char>
      reads this, data
    {
      CStr(data[..])
    }

    /** `BasicStackString(std::string_view)`. */
    constructor FromView(size: nat, other: seq<char>)
      requires size >= 1
      ensures Valid() && Size == size && fresh(data)
      ensures '\0' !in other[..Min(size - 1, |other|)] ==> View() == other[..Min(size - 1, |other|)]
    {
      Size := size;
      data := new char[size](_ => '\0');
      new;
      AssignView(other);
    }

    /**
     * `operator=(std::string_view)`: copies at most `Size - 1` characters and terminates
     * them; the characters after the terminator keep their old values.
     */
    method AssignView(other: seq<char>)
      requires Valid()
      modifies data
      ensures var k := Min(Size - 1, |other|);
        data[..k] == other[..k] && data[k] == '\0' && data[k + 1..] == old(data[k + 1..])
      ensures var k := Min(Size - 1, |other|);
        '\0' !in other[..k] ==> View() == other[..k]
    {
      var toCopy := Min(Size - 1, |other|);
      forall i | 0 <= i < toCopy {
        data[i] := other[i];
      }
      data[toCopy] := '\0';
      if '\0' !in other[..toCopy] {
        assert data[..toCopy] == other[..toCopy];
        CStrEndsAtFirstNul(data[..], toCopy);
      }
    }

    /**
     * `operator=(const char *)`: copies the C string `other`, measured with
     * `safe_strlen(other, Size)`, truncated to `Size - 1` characters.
     */
    method AssignCString(other: seq<char>)
      requires Valid() && (Size <= |other| || '\0' in other)
      modifies data
      ensures var k := Min(Size - 1, |CStr(other)|);
        data[..k] == other[..k] && data[k] == '\0' && data[k + 1..] == old(data[k + 1..])
      ensures View() == CStr(other)[..Min(Size - 1, |CStr(other)|)]
    {
      var n := SafeStrlen(other, Size);
      assert n == |CStr(other)| || n == Size by {
        if n < Size {
          CStrEndsAtFirstNul(other, n);
        }
      }
      CStrPrefix(other, n);
      var toCopy := Min(Size - 1, n);
      forall i | 0 <= i < toCopy {
        data[i] := other[i];
      }
      data[toCopy] := '\0';
      assert data[..toCopy] == other[..toCopy];
      CStrEndsAtFirstNul(data[..], toCopy);
    }

    function Capacity(): (n: nat)
      reads this
      requires Valid()
      ensures n == data.Length
    {
      Size
    }

    /** `len()`: the length of the string, `Size` when no terminator is stored. */
    method Len() returns (n: nat)
      requires Valid()
      ensures n == |View()|
      ensures n <= Size
    {
      n := SafeStrlen(data[..], Size);
      CStrEndsAtFirstNul(data[..], n);
    }

    /** `getStringView()`: the characters before the terminator. */
    method GetStringView() returns (s: seq<char>)
      requires Valid()
      ensures s == View()
    {
      var n := Len();
      s := data[..n];
    }
  }

  /** When the first `n` characters hold no NUL, the C string is at least `n` long. */
  lemma {:induction false} CStrPrefix(s: seq<char>, n: nat)
    requires n <= |s| && forall i :: 0 <= i < n ==> s[i] != '\0'
    ensures |CStr(s)| >= n && CStr(s)[..n] == s[..n]
  {
    if n > 0 {
      CStrPrefix(s[1..], n - 1);
    }
  }
}
