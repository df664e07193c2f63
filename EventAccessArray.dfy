/**
 * `EventAccessArray`: a fixed number of named setting slots, each with a value, an
 * initialized flag, a name and optional runtime data, changed by set, remove and get
 * events that address a slot by index or by name.
 */
module EventAccessArrays {
  import opened Wrappers
  import opened Algorithms
  import opened StackStrings

  /** `collection_operation_result`. */
  datatype CollectionResult = Ok | Failed | CollectionFull | IndexInvalid

  /** `size_t` on the 32-bit target. */
  const SizeTModulus: nat := 0x1_0000_0000

  /** The trivial representation (values, flags, names) together with the runtime data. */
  datatype Slots<B, R> = Slots(values: seq<B>, initialized: seq<bool>, names: seq<string>, runtime: seq<Option<R>>)

  predicate Sized<B, R>(s: Slots<B, R>, size: nat) {
    |s.values| == size && |s.initialized| == size && |s.names| == size && |s.runtime| == size
  }

  /** What an event reports: the new slots, the result and the index the event carries back. */
  datatype Outcome<B, R> = Outcome(slots: Slots<B, R>, result: CollectionResult, index: Option<nat>)

  /** The name a `stack_string<nameLength>` holds after assigning `name` to it: at most
      `nameLength - 1` characters, read up to the first NUL. */
  function StoredName(name: string, nameLength: nat): (r: string)
    requires nameLength >= 1
    ensures |r| < nameLength && r <= name
    ensures |name| < nameLength && '\0' !in name ==> r == name
  {
    var k := Min(nameLength - 1, |name|);
    CStrEndsAtFirstNulIfAbsent(name[..k]);
    CStr(name[..k])
  }

  lemma CStrEndsAtFirstNulIfAbsent(s: seq<char>)
    ensures '\0' !in s ==> CStr(s) == s
  {
    if '\0' !in s {
      CStrEndsAtFirstNul(s, |s|);
    }
  }

  /**
   * `findIndex`: an explicit index wins (when it is in range), then the first slot with the
   * name, then, when asked, the first uninitialized slot.
   */
  function FindIndex(size: nat, names: seq<string>, initialized: seq<bool>,
                     index: Option<nat>, name: Option<string>, findFree: bool): (r: Option<nat>)
    requires |names| == size && |initialized| == size
    ensures r.Some? ==> r.value < size
    ensures index.Some? ==> r == (if index.value < size then index else None)
    ensures index.None? && name.Some? && (exists i :: 0 <= i < size && names[i] == name.value) ==>
              r.Some? && names[r.value] == name.value && forall j :: 0 <= j < r.value ==> names[j] != name.value
    ensures index.None? && (name.None? || forall i :: 0 <= i < size ==> names[i] != name.value) ==>
              (r.Some? <==> findFree && exists i :: 0 <= i < size && !initialized[i]) &&
              (r.Some? ==> !initialized[r.value] && forall j :: 0 <= j < r.value ==> initialized[j])
  {
    if index.None? && name.None? && !findFree then None
    else if index.Some? && index.value >= size then None
    else if index.Some? then index
    else
      var byName := if name.Some? then Find(names, name.value) else None;
      if byName.Some? then byName
      else if findFree then Find(initialized, false)
      else None
  }

  /** `dispatch(SetValue&, update)`: finds a slot (a free one if need be) and lets the update
      hook rewrite its runtime data and value from the JSON text; only when the hook succeeds
      is the slot marked initialized and, if a name was given, renamed. */
  function SetValueSpec<B, R>(s: Slots<B, R>, size: nat, nameLength: nat, index: Option<nat>, name: Option<string>,
                              json: string, update: (Option<R>, B, string) -> (bool, Option<R>, B)): (o: Outcome<B, R>)
    requires Sized(s, size) && nameLength >= 1
    ensures Sized(o.slots, size)
    ensures o.result == CollectionFull <==> FindIndex(size, s.names, s.initialized, index, name, true).None?
    ensures o.result == CollectionFull ==> o.slots == s
    ensures o.result == Ok || o.result == Failed || o.result == CollectionFull
    ensures o.result == Ok <==> o.index.Some?
    ensures o.result == Ok ==>
              o.index == FindIndex(size, s.names, s.initialized, index, name, true) &&
              o.slots.initialized == s.initialized[o.index.value := true] &&
              o.slots.names == (if name.Some? then s.names[o.index.value := StoredName(name.value, nameLength)] else s.names)
    ensures o.result != Ok ==> o.slots.initialized == s.initialized && o.slots.names == s.names
    ensures forall j :: 0 <= j < size && FindIndex(size, s.names, s.initialized, index, name, true) != Some(j) ==>
              o.slots.values[j] == s.values[j] && o.slots.runtime[j] == s.runtime[j]
  {
    var f := FindIndex(size, s.names, s.initialized, index, name, true);
    if f.None? then Outcome(s, CollectionFull, None)
    else
      var i := f.value;
      var hook := update(s.runtime[i], s.values[i], json);
      var written := s.(values := s.values[i := hook.2], runtime := s.runtime[i := hook.1]);
      if hook.0 then
        var named := if name.Some? then written.names[i := StoredName(name.value, nameLength)] else written.names;
        Outcome(written.(initialized := written.initialized[i := true], names := named), Ok, f)
      else
        Outcome(written, Failed, None)
  }

  /** `dispatch(RemoveValue&)`: resets value, name, flag and runtime data of the addressed
      slot, which the event carries back; an unknown slot gives `IndexInvalid`. */
  function RemoveValueSpec<B, R>(s: Slots<B, R>, size: nat, defaultValue: B, index: Option<nat>, name: Option<string>)
    : (o: Outcome<B, R>)
    requires Sized(s, size)
    ensures Sized(o.slots, size)
    ensures o.result == Ok <==> FindIndex(size, s.names, s.initialized, index, name, false).Some?
    ensures o.result != Ok ==> o.result == IndexInvalid && o.slots == s && o.index == index
    ensures o.result == Ok ==> o.index.Some?
    ensures o.result == Ok ==>
              var i := o.index.value;
              o.index == FindIndex(size, s.names, s.initialized, index, name, false) &&
              o.slots == Slots(s.values[i := defaultValue], s.initialized[i := false], s.names[i := ""], s.runtime[i := None])
  {
    var f := FindIndex(size, s.names, s.initialized, index, name, false);
    if f.None? then Outcome(s, IndexInvalid, index)
    else
      var i := f.value;
      Outcome(Slots(s.values[i := defaultValue], s.initialized[i := false], s.names[i := ""], s.runtime[i := None]), Ok, f)
  }

  /** `dispatch(GetValue&)`: the stored value of the addressed slot, initialized or not. */
  function GetValueSpec<B, R>(s: Slots<B, R>, size: nat, index: Option<nat>, name: Option<string>)
    : (r: (CollectionResult, Option<B>))
    requires Sized(s, size)
    ensures r.0 == Ok <==> r.1.Some?
    ensures r.0 == Ok || r.0 == IndexInvalid
    ensures r.0 == Ok <==> FindIndex(size, s.names, s.initialized, index, name, false).Some?
    ensures r.1.Some? ==> r.1.value == s.values[FindIndex(size, s.names, s.initialized, index, name, false).value]
  {
    var f := FindIndex(size, s.names, s.initialized, index, name, false);
    if f.None? then (IndexInvalid, None) else (Ok, Some(s.values[f.value]))
  }

  /** A value set at an explicit index is read back at that index. */
  lemma SetThenGetByIndex<B, R>(s: Slots<B, R>, size: nat, nameLength: nat, i: nat, name: Option<string>,
                                json: string, update: (Option<R>, B, string) -> (bool, Option<R>, B))
    requires Sized(s, size) && nameLength >= 1 && i < size
    requires update(s.runtime[i], s.values[i], json).0
    ensures var o := SetValueSpec(s, size, nameLength, Some(i), name, json, update);
              o.result == Ok && o.index == Some(i) && o.slots.initialized[i] &&
              GetValueSpec(o.slots, size, Some(i), None) == (Ok, Some(update(s.runtime[i], s.values[i], json).2))
  {
  }

  /** A value set by a name that fits the name buffer is read back by that name. */
  lemma SetThenGetByName<B, R>(s: Slots<B, R>, size: nat, nameLength: nat, n: string,
                               json: string, update: (Option<R>, B, string) -> (bool, Option<R>, B))
    requires Sized(s, size) && nameLength >= 1 && |n| < nameLength && '\0' !in n
    ensures var o := SetValueSpec(s, size, nameLength, None, Some(n), json, update);
              o.result == Ok ==> GetValueSpec(o.slots, size, None, Some(n)) == (Ok, Some(o.slots.values[o.index.value]))
  {
    var o := SetValueSpec(s, size, nameLength, None, Some(n), json, update);
    if o.result == Ok {
      var i := o.index.value;
      assert o.slots.names[i] == n;
      forall j | 0 <= j < i
        ensures o.slots.names[j] != n
      {
        assert o.slots.names[j] == s.names[j];
      }
      assert FindIndex(size, o.slots.names, o.slots.initialized, None, Some(n), false) == Some(i);
    }
  }

  /** Removing the only slot with a name makes the name unknown. */
  lemma RemoveForgetsUniqueName<B, R>(s: Slots<B, R>, size: nat, defaultValue: B, n: string)
    requires Sized(s, size) && n != ""
    requires forall j, k :: 0 <= j < size && 0 <= k < size && s.names[j] == n && s.names[k] == n ==> j == k
    ensures var o := RemoveValueSpec(s, size, defaultValue, None, Some(n));
              GetValueSpec(o.slots, size, None, Some(n)) == (IndexInvalid, None)
  {
    var o := RemoveValueSpec(s, size, defaultValue, None, Some(n));
    if o.result == Ok {
      var i := o.index.value;
      forall j | 0 <= j < size
        ensures o.slots.names[j] != n
      {
        if j != i {
          assert s.names[i] == n;
        }
      }
    }
  }

  /** After a removal the slot reads back as the default value and is free again. */
  lemma RemoveThenGetByIndex<B, R>(s: Slots<B, R>, size: nat, defaultValue: B, i: nat)
    requires Sized(s, size) && i < size
    ensures var o := RemoveValueSpec(s, size, defaultValue, Some(i), None);
              o.result == Ok && GetValueSpec(o.slots, size, Some(i), None) == (Ok, Some(defaultValue)) &&
              Find(o.slots.initialized, false).Some? && Find(o.slots.initialized, false).value <= i
  {
    var o := RemoveValueSpec(s, size, defaultValue, Some(i), None);
    assert !o.slots.initialized[i];
  }

  /** The overview's entries for the slots in `[lo, hi)`: each initialized slot by index and
      name. */
  function Listed<B, R>(s: Slots<B, R>, size: nat, lo: nat, hi: nat): (r: seq<(nat, string)>)
    requires Sized(s, size) && hi <= size
    decreases hi
    ensures forall k :: 0 <= k < |r| ==> lo <= r[k].0 < hi && s.initialized[r[k].0] && r[k].1 == s.names[r[k].0]
  {
    if hi <= lo then []
    else
      var earlier := Listed(s, size, lo, hi - 1);
      if s.initialized[hi - 1] then earlier + [(hi - 1, s.names[hi - 1])] else earlier
  }

  /** Entries in strictly ascending index order. */
  predicate Ascending(r: seq<(nat, string)>) {
    forall k, l :: 0 <= k < l < |r| ==> r[k].0 < r[l].0
  }

  /** The overview lists the slots in ascending order. */
  lemma {:induction false} ListedAscending<B, R>(s: Slots<B, R>, size: nat, lo: nat, hi: nat)
    requires Sized(s, size) && hi <= size
    decreases hi
    ensures Ascending(Listed(s, size, lo, hi))
  {
    if lo < hi {
      ListedAscending(s, size, lo, hi - 1);
      var earlier := Listed(s, size, lo, hi - 1);
      if s.initialized[hi - 1] {
        AppendLaterKeepsAscending(earlier, hi - 1, s.names[hi - 1]);
      }
    }
  }

  /** An entry whose index exceeds every listed one extends an ascending overview. */
  lemma AppendLaterKeepsAscending(earlier: seq<(nat, string)>, i: nat, name: string)
    requires Ascending(earlier) && forall k :: 0 <= k < |earlier| ==> earlier[k].0 < i
    ensures Ascending(earlier + [(i, name)])
  {
    var r := earlier + [(i, name)];
    forall k, l | 0 <= k < l < |r|
      ensures r[k].0 < r[l].0
    {
      assert r[k] == earlier[k];
      if l < |earlier| {
        assert r[l] == earlier[l];
      }
    }
  }

  /** The overview misses no initialized slot. */
  lemma {:induction false} ListedComplete<B, R>(s: Slots<B, R>, size: nat, lo: nat, hi: nat, i: nat)
    requires Sized(s, size) && hi <= size
    requires lo <= i < hi && s.initialized[i]
    decreases hi
    ensures exists k :: 0 <= k < |Listed(s, size, lo, hi)| && Listed(s, size, lo, hi)[k] == (i, s.names[i])
  {
    var earlier := Listed(s, size, lo, hi - 1);
    var r := Listed(s, size, lo, hi);
    if i == hi - 1 {
      assert r == earlier + [(i, s.names[i])];
      assert r[|r| - 1] == (i, s.names[i]);
    } else {
      ListedComplete(s, size, lo, hi - 1, i);
      var k :| 0 <= k < |earlier| && earlier[k] == (i, s.names[i]);
      assert r[k] == earlier[k];
    }
  }

  class EventAccessArray<B, R> {
    /** `NumElements`. */
    const Size: nat
    /** `name_length`, the size of each name buffer including its terminator. */
    const NameLength: nat
    /** `BaseType{}`. */
    const DefaultValue: B
    const values: array<B>
    const initialized: array<bool>
    const names: array<string>
    const runtimeData: array<Option<R>>

    ghost predicate Valid()
      reads this
    {
      values.Length == Size && initialized.Length == Size && names.Length == Size && runtimeData.Length == Size &&
      NameLength >= 1 && Size < SizeTModulus / 2 &&
      values as object != names && values as object != runtimeData && names as object != runtimeData &&
      values as object != initialized && names as object != initialized && runtimeData as object != initialized
    }

    function State(): (s: Slots<B, R>)
      reads this, values, initialized, names, runtimeData
      requires Valid()
      ensures Sized(s, Size)
    {
      Slots(values[..], initialized[..], names[..], runtimeData[..])
    }

    /** An array in static storage: every slot holds the default value, no name, and is
        neither initialized nor backed by runtime data. */
    constructor (size: nat, nameLength: nat, defaultValue: B)
      requires nameLength >= 1 && size < SizeTModulus / 2
      ensures Valid() && Size == size && NameLength == nameLength && DefaultValue == defaultValue
      ensures fresh(values) && fresh(initialized) && fresh(names) && fresh(runtimeData)
      ensures State() == Slots(seq(size, _ => defaultValue), seq(size, _ => false), seq(size, _ => ""), seq(size, _ => None))
    {
      Size := size;
      NameLength := nameLength;
      DefaultValue := defaultValue;
      values := new B[size](_ => defaultValue);
      initialized := new bool[size](_ => false);
      names := new string[size](_ => "");
      runtimeData := new Option<R>[size](_ => None);
    }

    /** `findIndex`, with its two searches. */
    method FindIndexOf(index: Option<nat>, name: Option<string>, findFree: bool) returns (r: Option<nat>)
      requires Valid()
      ensures r == FindIndex(Size, names[..], initialized[..], index, name, findFree)
    {
      if index.None? && name.None? && !findFree {
        return None;
      } else if index.Some? && index.value >= Size {
        return None;
      }
      r := index;
      if r.None? && name.Some? {
        var i := 0;
        while i < Size
          invariant i <= Size
          invariant forall j :: 0 <= j < i ==> names[j] != name.value
        {
          if name.value == names[i] {
            r := Some(i);
            break;
          }
          i := i + 1;
        }
      }
      if r.None? && findFree {
        var i := 0;
        while i < Size
          invariant i <= Size
          invariant forall j :: 0 <= j < i ==> initialized[j]
        {
          if !initialized[i] {
            r := Some(i);
            break;
          }
          i := i + 1;
        }
      }
    }

    /** `initialize`: takes over a stored representation and lets the creation hook build the
        runtime data of every initialized slot. */
    method Initialize(newValues: seq<B>, newInitialized: seq<bool>, newNames: seq<string>,
                      create: (B, Option<R>) -> Option<R>)
      requires Valid() && |newValues| == Size && |newInitialized| == Size && |newNames| == Size
      modifies values, initialized, names, runtimeData
      ensures Valid()
      ensures State() == Slots(newValues, newInitialized, newNames,
                               seq(Size, i requires 0 <= i < Size =>
                                     if newInitialized[i] then create(newValues[i], old(runtimeData[i])) else old(runtimeData[i])))
    {
      ghost var oldRuntime := runtimeData[..];
      var i := 0;
      while i < Size
        invariant i <= Size
        invariant values[..i] == newValues[..i] && initialized[..i] == newInitialized[..i] && names[..i] == newNames[..i]
        invariant runtimeData[..] == oldRuntime
      {
        values[i] := newValues[i];
        initialized[i] := newInitialized[i];
        names[i] := newNames[i];
        i := i + 1;
      }
      i := 0;
      while i < Size
        invariant i <= Size
        invariant values[..] == newValues && initialized[..] == newInitialized && names[..] == newNames
        invariant forall j :: 0 <= j < i ==>
                    runtimeData[j] == if newInitialized[j] then create(newValues[j], oldRuntime[j]) else oldRuntime[j]
        invariant forall j :: i <= j < Size ==> runtimeData[j] == oldRuntime[j]
      {
        if initialized[i] {
          runtimeData[i] := create(values[i], runtimeData[i]);
        }
        i := i + 1;
      }
    }

    /** `dispatch(SetValue&, update)`. */
    method SetValue(index: Option<nat>, name: Option<string>, json: string,
                    update: (Option<R>, B, string) -> (bool, Option<R>, B))
      returns (result: CollectionResult, resultIndex: Option<nat>)
      requires Valid()
      modifies values, initialized, names, runtimeData
      ensures Valid()
      ensures Outcome(State(), result, resultIndex) ==
              SetValueSpec(old(State()), Size, NameLength, index, name, json, update)
    {
      var f := FindIndexOf(index, name, true);
      if f.None? {
        return CollectionFull, None;
      }
      var i := f.value;
      var hook := update(runtimeData[i], values[i], json);
      runtimeData[i] := hook.1;
      values[i] := hook.2;
      if hook.0 {
        initialized[i] := true;
        if name.Some? {
          names[i] := StoredName(name.value, NameLength);
        }
        result, resultIndex := Ok, f;
      } else {
        result, resultIndex := Failed, None;
      }
    }

    /** `dispatch(SetValue&)`: the update hook that accepts any text and changes nothing. */
    method SetValueUnchecked(index: Option<nat>, name: Option<string>, json: string)
      returns (result: CollectionResult, resultIndex: Option<nat>)
      requires Valid()
      modifies values, initialized, names, runtimeData
      ensures Valid()
      ensures Outcome(State(), result, resultIndex) ==
              SetValueSpec(old(State()), Size, NameLength, index, name, json, (rt, v, _) => (true, rt, v))
    {
      result, resultIndex := SetValue(index, name, json, (rt, v, _) => (true, rt, v));
    }

    /** `dispatch(RemoveValue&)`. */
    method RemoveValue(index: Option<nat>, name: Option<string>) returns (result: CollectionResult, eventIndex: Option<nat>)
      requires Valid()
      modifies values, initialized, names, runtimeData
      ensures Valid()
      ensures Outcome(State(), result, eventIndex) == RemoveValueSpec(old(State()), Size, DefaultValue, index, name)
    {
      var f := FindIndexOf(index, name, false);
      if f.None? {
        return IndexInvalid, index;
      }
      var i := f.value;
      runtimeData[i] := None;
      values[i] := DefaultValue;
      names[i] := "";
      initialized[i] := false;
      result, eventIndex := Ok, f;
    }

    /** `dispatch(GetValue&)`. */
    method GetValue(index: Option<nat>, name: Option<string>) returns (result: CollectionResult, value: Option<B>)
      requires Valid()
      ensures (result, value) == GetValueSpec(State(), Size, index, name)
    {
      var f := FindIndexOf(index, name, false);
      if f.None? {
        return IndexInvalid, None;
      }
      result, value := Ok, Some(values[f.value]);
    }

    /** `hasValidRuntimeData`: the `int` index is compared after conversion to `size_t`, so
        a negative `int` index is refused along with one that is too large. */
    function HasValidRuntimeData(index: int): (r: bool)
      reads this, values, initialized, names, runtimeData
      requires Valid() && -(SizeTModulus as int / 2) <= index < SizeTModulus / 2
      ensures r <==> 0 <= index < Size && initialized[index] && runtimeData[index].Some?
    {
      if index % SizeTModulus >= Size then false
      else initialized[index] && runtimeData[index].Some?
    }

    /** The entries of `dispatch(GetValueOverview&)` from `start`, and its result as written:
        the `IndexInvalid` for a start beyond the end is overwritten by `Ok`. */
    method GetValueOverviewAsWritten(start: Option<nat>) returns (result: CollectionResult, entries: seq<(nat, string)>)
      requires Valid()
      ensures result == Ok
      ensures var from := if start.Some? then start.value else 0;
              entries == (if from < Size then Listed(State(), Size, from, Size) else [])
    {
      var from := if start.Some? then start.value else 0;
      if from > Size {
        result := IndexInvalid;
      }
      entries := [];
      var i := from;
      while i < Size
        invariant from <= Size ==> from <= i <= Size && entries == Listed(State(), Size, from, i)
        invariant from > Size ==> entries == []
      {
        if initialized[i] {
          entries := entries + [(i, names[i])];
        }
        i := i + 1;
      }
      result := Ok;
    }

    /** `dispatch(GetValueOverview&)` as evidently intended: a start beyond the end is
        reported as `IndexInvalid`. */
    method GetValueOverview(start: Option<nat>) returns (result: CollectionResult, entries: seq<(nat, string)>)
      requires Valid()
      ensures var from := if start.Some? then start.value else 0;
              (result == IndexInvalid <==> from > Size) && (result == Ok <==> from <= Size)
      ensures var from := if start.Some? then start.value else 0;
              entries == (if from < Size then Listed(State(), Size, from, Size) else [])
    {
      var from := if start.Some? then start.value else 0;
      if from > Size {
        return IndexInvalid, [];
      }
      entries := [];
      var i := from;
      while i < Size
        invariant from <= i <= Size && entries == Listed(State(), Size, from, i)
      {
        if initialized[i] {
          entries := entries + [(i, names[i])];
        }
        i := i + 1;
      }
      result := Ok;
    }
  }
}
