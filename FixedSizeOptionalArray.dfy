/**
 * `FixedSizeOptionalArray<Size, T>`: `Size` slots, each empty or holding a value.
 * The mutex that guards every member is not part of the model.
 */
module OptionalArrays {
  import opened Wrappers

  /** The number of occupied slots of `s`. */
  function Occupied<T>(s: seq<Option<T>>): (n: nat)
    ensures n <= |s|
  {
    if s == [] then 0 else Occupied(s[..|s| - 1]) + (if s[|s| - 1].Some? then 1 else 0)
  }

  /** No slot is occupied exactly when the count is zero. */
  lemma {:induction false} OccupiedZero<T>(s: seq<Option<T>>)
    ensures Occupied(s) == 0 <==> forall i :: 0 <= i < |s| ==> s[i] == None
  {
    if s != [] {
      OccupiedZero(s[..|s| - 1]);
      assert forall i :: 0 <= i < |s| - 1 ==> s[..|s| - 1][i] == s[i];
    }
  }

  /** Every slot is occupied exactly when the count equals the size. */
  lemma {:induction false} OccupiedFull<T>(s: seq<Option<T>>)
    ensures Occupied(s) == |s| <==> forall i :: 0 <= i < |s| ==> s[i].Some?
  {
    if s != [] {
      OccupiedFull(s[..|s| - 1]);
      assert forall i :: 0 <= i < |s| - 1 ==> s[..|s| - 1][i] == s[i];
    }
  }

  /** Filling an empty slot adds one to the count, emptying a full one takes one away. */
  lemma {:induction false} OccupiedAfterUpdate<T>(s: seq<Option<T>>, k: nat, x: Option<T>)
    requires k < |s|
    ensures Occupied(s[k := x]) ==
      Occupied(s) - (if s[k].Some? then 1 else 0) + (if x.Some? then 1 else 0)
  {
    var last := |s| - 1;
    if k < last {
      OccupiedAfterUpdate(s[..last], k, x);
      assert s[k := x][..last] == s[..last][k := x];
    } else {
      assert s[k := x][..last] == s[..last];
    }
  }

  /** The first empty slot of `s`, if there is one. */
  function FirstEmpty<T>(s: seq<Option<T>>): (r: Option<nat>)
    ensures r.None? <==> forall i :: 0 <= i < |s| ==> s[i].Some?
    ensures r.Some? ==> r.value < |s| && s[r.value] == None
    ensures r.Some? ==> forall i :: 0 <= i < r.value ==> s[i].Some?
  {
    if s == [] then None
    else if s[0] == None then Some(0)
    else match FirstEmpty(s[1..]) {
      case None => None
      case Some(k) => Some(k + 1)
    }
  }

  class FixedSizeOptionalArray<T> {
    const data: array<Option<T>>

    constructor (size: nat)
      ensures fresh(data) && data.Length == size
      ensures forall i :: 0 <= i < size ==> data[i] == None
    {
      data := new Option<T>[size](_ => None);
    }

    /** `operator[]`: unchecked access to a slot. */
    function Get(index: nat): (r: Option<T>)
      reads data
      requires index < data.Length
      ensures r == data[..][index]
    {
      data[index]
    }

    function Size(): (n: nat)
      ensures n == data.Length
    {
      data.Length
    }

    method Count() returns (cnt: nat)
      ensures cnt == Occupied(data[..])
    {
      cnt := 0;
      var i := 0;
      while i < data.Length
        invariant i <= data.Length
        invariant cnt == Occupied(data[..i])
      {
        assert data[..i + 1][..i] == data[..i];
        if data[i].Some? {
          cnt := cnt + 1;
        }
        i := i + 1;
      }
      assert data[..i] == data[..];
    }

    method Empty() returns (b: bool)
      ensures b <==> forall i :: 0 <= i < data.Length ==> data[i] == None
    {
      var cnt := Count();
      OccupiedZero(data[..]);
      b := cnt == 0;
    }

    method Clear()
      modifies data
      ensures forall i :: 0 <= i < data.Length ==> data[i] == None
    {
      var i := 0;
      while i < data.Length
        invariant i <= data.Length
        invariant forall j :: 0 <= j < i ==> data[j] == None
      {
        data[i] := None;
        i := i + 1;
      }
    }

    method Insert(index: nat, value: T)
      requires index < data.Length
      modifies data
      ensures data[..] == old(data[..])[index := Some(value)]
    {
      data[index] := Some(value);
    }

    method Erase(index: nat)
      requires index < data.Length
      modifies data
      ensures data[..] == old(data[..])[index := None]
    {
      data[index] := None;
    }

    /** Stores `value` in the first empty slot; fails when every slot is occupied. */
    method Append(value: T) returns (ok: bool)
      modifies data
      ensures ok <==> FirstEmpty(old(data[..])).Some?
      ensures ok ==> data[..] == old(data[..])[FirstEmpty(old(data[..])).value := Some(value)]
      ensures !ok ==> data[..] == old(data[..])
      ensures Occupied(data[..]) == Occupied(old(data[..])) + (if ok then 1 else 0)
    {
      var i := 0;
      while i < data.Length && data[i].Some?
        invariant i <= data.Length
        invariant forall j :: 0 <= j < i ==> data[j].Some?
      {
        i := i + 1;
      }
      ok := i < data.Length;
      if ok {
        data[i] := Some(value);
        OccupiedAfterUpdate(old(data[..]), i, Some(value));
      }
    }
  }
}
