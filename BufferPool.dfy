/**
 * The large buffer pool: a fixed set of equally sized buffers, each either available or
 * borrowed. A borrower holds a buffer's address and length and hands the buffer back to the
 * pool when it is destroyed.
 */
module BufferPools {
  import opened Wrappers
  import opened Algorithms

  datatype BufferStatus = Borrowed | Available

  /** A buffer address; 0 is the null pointer. */
  type Address = nat
  const Null: Address := 0

  /** `LargeBufferBorrower`: the address and length it holds; a moved-from borrower holds the
      null pointer and length 0. */
  datatype Borrower = Borrower(ptr: Address, length: nat)

  predicate Distinct(addresses: seq<Address>) {
    forall i, j :: 0 <= i < j < |addresses| ==> addresses[i] != addresses[j]
  }

  /** `get_free_buffer` on the statuses: the first available buffer becomes borrowed, and
      nothing changes when every buffer is borrowed. */
  function GetFreeSpec(statuses: seq<BufferStatus>): (r: (Option<nat>, seq<BufferStatus>))
    ensures |r.1| == |statuses|
    ensures r.0.None? <==> forall i :: 0 <= i < |statuses| ==> statuses[i] == Borrowed
    ensures r.0.None? ==> r.1 == statuses
    ensures r.0.Some? ==> r.0.value < |statuses| && statuses[r.0.value] == Available &&
                          r.1 == statuses[r.0.value := Borrowed]
  {
    var k := Find(statuses, Available);
    if k.None? then
      assert forall i :: 0 <= i < |statuses| ==> statuses[i] != Available;
      (None, statuses)
    else (k, statuses[k.value := Borrowed])
  }

  /** `return_buffer` on the statuses: the null pointer and an address of no buffer are
      refused; otherwise the buffer at the address becomes available. */
  function ReturnSpec(addresses: seq<Address>, statuses: seq<BufferStatus>, ptr: Address): (r: (bool, seq<BufferStatus>))
    requires |addresses| == |statuses|
    ensures r.0 <==> ptr != Null && exists i :: 0 <= i < |addresses| && addresses[i] == ptr
    ensures !r.0 ==> r.1 == statuses
    ensures r.0 ==> r.1 == statuses[Find(addresses, ptr).value := Available]
  {
    if ptr == Null then (false, statuses)
    else
      var k := Find(addresses, ptr);
      if k.None? then (false, statuses) else (true, statuses[k.value := Available])
  }

  /** Borrowing a buffer and returning its address restores the pool's statuses. */
  lemma BorrowThenReturnRestores(addresses: seq<Address>, statuses: seq<BufferStatus>)
    requires |addresses| == |statuses| && Distinct(addresses) && Null !in addresses
    ensures var (k, borrowed) := GetFreeSpec(statuses);
              k.Some? ==> ReturnSpec(addresses, borrowed, addresses[k.value]) == (true, statuses)
  {
    var (k, borrowed) := GetFreeSpec(statuses);
    if k.Some? {
      var i := k.value;
      assert addresses[i] in addresses;
      assert Find(addresses, addresses[i]) == Some(i);
      assert borrowed[i := Available] == statuses;
    }
  }

  /** Two borrowings never hand out the same buffer: after a successful borrow the next one
      picks another buffer, or none. */
  lemma BorrowsAreExclusive(statuses: seq<BufferStatus>)
    ensures var (k, borrowed) := GetFreeSpec(statuses);
              k.Some? ==> GetFreeSpec(borrowed).0 != k
  {
  }

  /** `AllocatedBuffer`: a buffer of `Size` characters at a fixed address, with its status. */
  class AllocatedBuffer {
    const ptr: Address
    const Size: nat
    var status: BufferStatus

    /** A buffer starts available; its storage was allocated at `address`. */
    constructor (address: Address, size: nat)
      ensures ptr == address && Size == size && status == Available
    {
      ptr := address;
      Size := size;
      status := Available;
    }

    predicate IsAvailable()
      reads this
    {
      status == Available
    }

    /** `giveBack`: only the buffer's own address makes it available again. */
    method GiveBack(p: Address) returns (ok: bool)
      modifies this
      ensures ok <==> p == ptr
      ensures status == (if ok then Available else old(status))
    {
      if p != ptr {
        return false;
      }
      status := Available;
      ok := true;
    }

    /** `borrowBuffer` with the pool's creation lambda, which wraps the address and size in
        a borrower. */
    method BorrowBuffer() returns (r: Option<Borrower>)
      modifies this
      ensures r.Some? <==> old(status) == Available
      ensures r.Some? ==> r.value == Borrower(ptr, Size)
      ensures status == Borrowed
    {
      if !IsAvailable() {
        return None;
      }
      status := Borrowed;
      r := Some(Borrower(ptr, Size));
    }
  }

  /** `LargeBufferPool<NumBuffers, BufferSize>`. */
  class LargeBufferPool {
    const BufferSize: nat
    const buffers: seq<AllocatedBuffer>

    ghost predicate Valid()
      reads this
    {
      Distinct(Addresses()) && Null !in Addresses() &&
      forall i :: 0 <= i < |buffers| ==> buffers[i].Size == BufferSize
    }

    function Addresses(): (r: seq<Address>)
      reads this
      ensures |r| == |buffers|
    {
      seq(|buffers|, i requires 0 <= i < |buffers| => buffers[i].ptr)
    }

    ghost function Statuses(): (r: seq<BufferStatus>)
      reads this, set i | 0 <= i < |buffers| :: buffers[i]
      ensures |r| == |buffers|
    {
      seq(|buffers|, i requires 0 <= i < |buffers| reads buffers => buffers[i].status)
    }

    /** Every buffer available, each allocated at a distinct non-null address. */
    constructor (addresses: seq<Address>, bufferSize: nat)
      requires Distinct(addresses) && Null !in addresses
      ensures Valid() && BufferSize == bufferSize && Addresses() == addresses
      ensures Statuses() == seq(|addresses|, _ => Available)
    {
      var made: seq<AllocatedBuffer> := [];
      var i := 0;
      while i < |addresses|
        invariant i <= |addresses| && |made| == i
        invariant forall j :: 0 <= j < i ==> made[j].ptr == addresses[j] && made[j].Size == bufferSize
        invariant forall j :: 0 <= j < i ==> made[j].status == Available
      {
        var b := new AllocatedBuffer(addresses[i], bufferSize);
        made := made + [b];
        i := i + 1;
      }
      BufferSize := bufferSize;
      buffers := made;
      new;
      assert Addresses() == addresses;
    }

    /** Different buffers of a valid pool are different objects. */
    lemma DistinctBuffers(i: nat, j: nat)
      requires Valid() && i < |buffers| && j < |buffers| && i != j
      ensures buffers[i] != buffers[j]
    {
      assert Addresses()[i] == buffers[i].ptr && Addresses()[j] == buffers[j].ptr;
      if i < j {
        assert Addresses()[i] != Addresses()[j];
      } else {
        assert Addresses()[j] != Addresses()[i];
      }
    }

    /** `get_free_buffer`: borrows the first available buffer. */
    method GetFreeBuffer() returns (r: Option<Borrower>)
      requires Valid()
      modifies set i | 0 <= i < |buffers| :: buffers[i]
      ensures Valid()
      ensures var (k, after) := GetFreeSpec(old(Statuses()));
                Statuses() == after && (r.Some? <==> k.Some?) &&
                (r.Some? ==> r.value == Borrower(buffers[k.value].ptr, BufferSize))
    {
      ghost var before := Statuses();
      var i := 0;
      r := None;
      while i < |buffers|
        invariant i <= |buffers| && r.None?
        invariant forall j :: 0 <= j < i ==> before[j] == Borrowed
        invariant Statuses() == before
      {
        assert buffers[i].status == before[i];
        r := buffers[i].BorrowBuffer();
        forall j | 0 <= j < |buffers| && j != i
          ensures buffers[j].status == before[j]
        {
          DistinctBuffers(i, j);
        }
        if r.Some? {
          assert Find(before, Available) == Some(i);
          assert Statuses() == before[i := Borrowed];
          return;
        }
        assert Statuses() == before;
        i := i + 1;
      }
    }

    /** `return_buffer`: hands the buffer at `p` back. */
    method ReturnBuffer(p: Address) returns (ok: bool)
      requires Valid()
      modifies set i | 0 <= i < |buffers| :: buffers[i]
      ensures Valid()
      ensures (ok, Statuses()) == ReturnSpec(Addresses(), old(Statuses()), p)
    {
      if p == Null {
        return false;
      }
      ghost var before := Statuses();
      var i := 0;
      while i < |buffers|
        invariant i <= |buffers|
        invariant forall j :: 0 <= j < i ==> buffers[j].ptr != p
        invariant Statuses() == before
      {
        assert Addresses()[i] == buffers[i].ptr;
        ok := buffers[i].GiveBack(p);
        forall j | 0 <= j < |buffers| && j != i
          ensures buffers[j].status == before[j]
        {
          DistinctBuffers(i, j);
        }
        if ok {
          assert Find(Addresses(), p) == Some(i);
          assert Statuses() == before[i := Available];
          return;
        }
        assert Statuses() == before;
        i := i + 1;
      }
      ok := false;
    }

    /** `~LargeBufferBorrower`: returns the held buffer; a moved-from borrower holds the null
        pointer and changes nothing. */
    method ReleaseBorrower(b: Borrower)
      requires Valid()
      modifies set i | 0 <= i < |buffers| :: buffers[i]
      ensures Valid()
      ensures Statuses() == ReturnSpec(Addresses(), old(Statuses()), b.ptr).1
      ensures b.ptr == Null ==> Statuses() == old(Statuses())
    {
      var _ := ReturnBuffer(b.ptr);
    }
  }
}
