/**
 * `ResourceLookupTable<Safety, keys...>`: one boolean flag per key of a fixed key list,
 * with compare-and-set acquisition that hands out a `FlagTracker`. Destroying a tracker
 * that holds a key writes the tracker's reset value back into the flag.
 */
module LookupTables {
  import opened Wrappers
  import opened Algorithms

  /**
   * A `FlagTracker`: empty (no index, no holder), or holding a key of `holder`
   * together with the value to restore on destruction.
   */
  datatype FlagTracker = FlagTracker(index: Option<int>, resetTo: bool, holder: ResourceLookupTable?)
  {
    /** `explicit operator bool`. */
    predicate Holds() { index.Some? }
  }

  const EmptyTracker := FlagTracker(None, false, null)

  class ResourceLookupTable {
    /** The template's list of keys. */
    const indices: seq<int>
    const values: array<bool>

    ghost predicate Valid()
      reads this
    {
      values.Length == |indices|
    }

    constructor (keys: seq<int>)
      ensures Valid() && indices == keys && fresh(values)
      ensures forall i :: 0 <= i < values.Length ==> !values[i]
    {
      indices := keys;
      values := new bool[|keys|](_ => false);
    }

    /**
     * Compare-and-set: when `v` is a key whose flag equals `oldValue`, the flag becomes
     * `newValue` and the returned tracker will restore `oldValue`; otherwise nothing changes
     * and the tracker is empty.
     */
    method SetIfValue(v: int, newValue: bool, oldValue: bool) returns (t: FlagTracker)
      requires Valid()
      modifies values
      ensures var k := Find(indices, v);
        if k.Some? && old(values[k.value]) == oldValue then
          values[..] == old(values[..])[k.value := newValue] &&
          t == FlagTracker(Some(v), oldValue, this)
        else
          values[..] == old(values[..]) && t == EmptyTracker
    {
      var k := Find(indices, v);
      if k.None? {
        return EmptyTracker;
      }
      if values[k.value] != oldValue {
        return EmptyTracker;
      }
      values[k.value] := newValue;
      return FlagTracker(Some(v), oldValue, this);
    }

    /** Unconditional set; the returned tracker is always empty. */
    method SetIf(v: int, newValue: bool) returns (t: FlagTracker)
      requires Valid()
      modifies values
      ensures t == EmptyTracker
      ensures var k := Find(indices, v);
        if k.Some? then values[..] == old(values[..])[k.value := newValue]
        else values[..] == old(values[..])
    {
      var k := Find(indices, v);
      if k.None? {
        return EmptyTracker;
      }
      values[k.value] := newValue;
      return EmptyTracker;
    }

    /** The destructor of a tracker handed out by this table. */
    method Release(t: FlagTracker)
      requires Valid() && (t.holder == null || t.holder == this)
      modifies values
      ensures var k := Find(indices, if t.index.Some? then t.index.value else 0);
        if t.holder != null && t.index.Some? && k.Some? then
          values[..] == old(values[..])[k.value := t.resetTo]
        else
          values[..] == old(values[..])
    {
      if t.holder != null && t.index.Some? {
        var _ := SetIf(t.index.value, t.resetTo);
      }
    }
  }

  /**
   * A key acquired with `SetIfValue(key, true, false)` cannot be acquired again until its
   * tracker is released, and can be acquired again afterwards.
   */
  method ExclusiveAcquisition(table: ResourceLookupTable, key: int)
    returns (first: FlagTracker, second: FlagTracker, third: FlagTracker)
    requires table.Valid() && key in table.indices
    requires forall i :: 0 <= i < table.values.Length ==> !table.values[i]
    modifies table.values
    ensures first.Holds() && !second.Holds() && third.Holds()
  {
    first := table.SetIfValue(key, true, false);
    second := table.SetIfValue(key, true, false);
    table.Release(second);
    table.Release(first);
    third := table.SetIfValue(key, true, false);
  }

  /**
   * The defaulted move constructor and move assignment of `FlagTracker`: `std::optional`'s
   * move leaves the source engaged and the holder pointer is copied, so the moved-from
   * tracker still holds the key and still restores it when destroyed.
   */
  method MoveAsWritten(t: FlagTracker) returns (dst: FlagTracker, src: FlagTracker)
    ensures dst == t && src == t
    ensures t.Holds() ==> dst.Holds() && src.Holds()
  {
    dst := t;
    src := t;
  }

  /** A move that hands the key over and leaves the moved-from tracker empty. */
  method Move(t: FlagTracker) returns (dst: FlagTracker, src: FlagTracker)
    ensures dst == t && src == EmptyTracker
    ensures !src.Holds()
  {
    dst := t;
    src := EmptyTracker;
  }

  /**
   * `Bme280Driver::create_driver` moves its tracker into the driver and then destroys the
   * local. With the defaulted move that destruction writes `false` back, and the key is
   * acquired a second time while the moved-to tracker still holds it.
   */
  method MovedFromReleaseFreesHeldKey(table: ResourceLookupTable, key: int)
    returns (dst: FlagTracker, second: FlagTracker)
    requires table.Valid() && key in table.indices
    requires forall i :: 0 <= i < table.values.Length ==> !table.values[i]
    modifies table.values
    ensures dst.Holds() && second.Holds()
  {
    var first := table.SetIfValue(key, true, false);
    var src;
    dst, src := MoveAsWritten(first);
    table.Release(src);
    second := table.SetIfValue(key, true, false);
  }

  /**
   * With a move that empties its source, destroying the moved-from tracker changes nothing:
   * the key stays taken while the moved-to tracker lives and is free once it is released.
   */
  method MovePreservesExclusiveAcquisition(table: ResourceLookupTable, key: int)
    returns (dst: FlagTracker, second: FlagTracker, third: FlagTracker)
    requires table.Valid() && key in table.indices
    requires forall i :: 0 <= i < table.values.Length ==> !table.values[i]
    modifies table.values
    ensures dst.Holds() && !second.Holds() && third.Holds()
  {
    var first := table.SetIfValue(key, true, false);
    var src;
    dst, src := Move(first);
    table.Release(src);
    second := table.SetIfValue(key, true, false);
    table.Release(second);
    table.Release(dst);
    third := table.SetIfValue(key, true, false);
  }
}
