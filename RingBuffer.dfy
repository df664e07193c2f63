/**
 * `RingBuffer<T, N>`: a fixed-capacity double-ended buffer over an array of N slots.
 * Appending to a full buffer overwrites the oldest element, so the buffer always holds
 * the most recent N values in insertion order.
 */
module RingBuffers {
  import opened Wrappers
  import opened Algorithms

  /** Number of distinct `size_t` values. */
  const SizeTModulus: int := 0x1_0000_0000_0000_0000

  /** The abstract effect of `append` on the sequence of stored values. */
  function Appended<T>(s: seq<T>, x: T, capacity: nat): (r: seq<T>)
    requires 0 < capacity && |s| <= capacity
    ensures |r| == if |s| == capacity then capacity else |s| + 1
    ensures r[|r| - 1] == x
    ensures |s| < capacity ==> r[..|s|] == s
    ensures |s| == capacity ==> r[..|r| - 1] == s[1..]
  {
    if |s| == capacity then s[1..] + [x] else s + [x]
  }

  /** Appending the values `xs` one after the other. */
  function AppendedAll<T>(s: seq<T>, xs: seq<T>, capacity: nat): (r: seq<T>)
    requires 0 < capacity && |s| <= capacity
    ensures |r| <= capacity
    decreases |xs|
  {
    if xs == [] then s else AppendedAll(Appended(s, xs[0], capacity), xs[1..], capacity)
  }

  /**
   * Whatever was appended, the buffer holds the last `capacity` values of everything that
   * was ever put in, oldest first: FIFO order survives wrap-around.
   */
  lemma {:induction false} AppendedAllKeepsNewest<T>(s: seq<T>, xs: seq<T>, capacity: nat)
    requires 0 < capacity && |s| <= capacity
    ensures AppendedAll(s, xs, capacity) == (s + xs)[|s + xs| - Min(capacity, |s + xs|)..]
    decreases |xs|
  {
    if xs == [] {
      assert s + xs == s;
    } else {
      var s' := Appended(s, xs[0], capacity);
      AppendedAllKeepsNewest(s', xs[1..], capacity);
      NewestAfterOneAppend(s, xs, capacity);
    }
  }

  /** Appending the first of `xs` keeps the newest values of everything put in. */
  lemma NewestAfterOneAppend<T>(s: seq<T>, xs: seq<T>, capacity: nat)
    requires 0 < capacity && |s| <= capacity && xs != []
    ensures var rest := Appended(s, xs[0], capacity) + xs[1..];
            rest[|rest| - Min(capacity, |rest|)..] == (s + xs)[|s + xs| - Min(capacity, |s + xs|)..]
  {
    var all := s + xs;
    if |s| == capacity {
      assert Appended(s, xs[0], capacity) + xs[1..] == all[1..];
      DropOneMore(all, capacity);
    } else {
      assert Appended(s, xs[0], capacity) + xs[1..] == all;
    }
  }

  /** Keeping the last `capacity` values of a sequence longer than `capacity` is the same
      after its first value is dropped. */
  lemma DropOneMore<T>(all: seq<T>, capacity: nat)
    requires capacity < |all|
    ensures all[1..][|all| - 1 - Min(capacity, |all| - 1)..] == all[|all| - Min(capacity, |all|)..]
  {
  }

  /** `k % n` for `0 <= k < 2n`, without the modulus. */
  lemma ModuloOfLessThanTwice(k: int, n: int)
    requires 0 < n && 0 <= k < 2 * n
    ensures k % n == if k < n then k else k - n
  {
    if k >= n {
      assert k == 1 * n + (k - n);
    }
  }

  lemma ModuloBelow(k: int, n: int)
    requires 0 < n
    ensures 0 <= k % n < n
  {
  }

  /** The slot `offset + i` taken modulo `n`, for positions that wrap at most once. */
  function Slot(offset: nat, i: nat, n: nat): nat
  {
    if offset + i < n then offset + i else offset + i - n
  }

  class RingBuffer<T(0)> {
    /** The template parameter N, the number of slots. */
    const N: nat
    const data: array<T>
    var offset: nat
    var size: nat
    /** The stored values, front first. */
    ghost var Contents: seq<T>

    ghost predicate Valid()
      reads this, data
    {
      data.Length == N && 1 < N && N * 2 <= SizeTModulus && offset < N && size <= N &&
      |Contents| == size &&
      forall i :: 0 <= i < size ==> data[Slot(offset, i, N)] == Contents[i]
    }

    /** `calculateRealIndex`: the slot that holds logical position `n`, in `size_t` arithmetic. */
    function RealIndex(n: nat): (k: nat)
      reads this, data
      requires Valid() && n < SizeTModulus
      ensures k < N
      ensures n < N ==> k == Slot(offset, n, N)
    {
      var wrapped := (offset + n) % SizeTModulus;
      if n < N then
        assert wrapped == offset + n;
        ModuloOfLessThanTwice(wrapped, N);
        wrapped % N
      else
        ModuloBelow(wrapped, N);
        wrapped % N
    }

    constructor (capacity: nat)
      requires 1 < capacity && capacity * 2 <= SizeTModulus
      ensures Valid() && N == capacity && fresh(data) && Contents == []
    {
      N := capacity;
      data := new T[capacity];
      offset, size := 0, 0;
      Contents := [];
    }

    /** `operator[]`: unchecked access to logical position `index`. */
    function At(index: nat): (r: T)
      reads this, data
      requires Valid() && index < SizeTModulus
      ensures index < size ==> r == Contents[index]
    {
      data[RealIndex(index)]
    }

    function Empty(): (b: bool)
      reads this, data
      requires Valid()
      ensures b <==> Contents == []
    {
      size == 0
    }

    function Size(): (n: nat)
      reads this, data
      requires Valid()
      ensures n == |Contents|
    {
      size
    }

    /** `front()`: the oldest value; on an empty buffer, whatever the slot holds. */
    function Front(): (r: T)
      reads this, data
      requires Valid()
      ensures Contents != [] ==> r == Contents[0]
    {
      At(0)
    }

    /** `back()`: the newest value; `size() - 1` wraps around on an empty buffer. */
    function Back(): (r: T)
      reads this, data
      requires Valid()
      ensures Contents != [] ==> r == Contents[|Contents| - 1]
    {
      At(if size == 0 then SizeTModulus - 1 else size - 1)
    }

    method Append(x: T)
      requires Valid()
      modifies this, data
      ensures Valid()
      ensures Contents == Appended(old(Contents), x, N)
    {
      if size == N {
        data[RealIndex(0)] := x;
        offset := Slot(offset, 1, N);
        Contents := Contents[1..] + [x];
      } else {
        data[RealIndex(size)] := x;
        size := size + 1;
        Contents := Contents + [x];
      }
    }

    method RemoveFront()
      requires Valid()
      modifies this
      ensures Valid()
      ensures Contents == if old(size) == 0 then old(Contents) else old(Contents)[1..]
    {
      if Empty() {
        return;
      }
      offset := Slot(offset, 1, N);
      size := size - 1;
      Contents := Contents[1..];
    }

    method RemoveBack()
      requires Valid()
      modifies this
      ensures Valid()
      ensures Contents == if old(size) == 0 then old(Contents) else old(Contents)[..old(size) - 1]
    {
      if Empty() {
        return;
      }
      size := size - 1;
      Contents := Contents[..size];
    }

    method TakeBack() returns (r: Option<T>)
      requires Valid()
      modifies this
      ensures Valid()
      ensures old(size) == 0 ==> r == None && Contents == old(Contents)
      ensures old(size) > 0 ==>
        r == Some(old(Contents)[old(size) - 1]) && Contents == old(Contents)[..old(size) - 1]
    {
      if Empty() {
        return None;
      }
      var value := At(size - 1);
      RemoveBack();
      return Some(value);
    }

    method TakeFront() returns (r: Option<T>)
      requires Valid()
      modifies this
      ensures Valid()
      ensures old(size) == 0 ==> r == None && Contents == old(Contents)
      ensures old(size) > 0 ==> r == Some(old(Contents)[0]) && Contents == old(Contents)[1..]
    {
      if Empty() {
        return None;
      }
      var value := At(0);
      RemoveFront();
      return Some(value);
    }
  }
}
