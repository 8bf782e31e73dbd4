/** The `pending`/`spare` pair: two backing arrays that swap roles on every drain. */
module LineQueues {
  import opened Basics
  import opened Wal

  /**
   Refines a FIFO queue that is drained atomically. `pending` collects new lines in place,
   growing into a new array when it is full. After a drain, `spare` is the batch being
   written, and `pending` reuses the array of the batch before it.
   */
  class LineQueue {
    var pending: array<bytes>
    var pendingLen: nat
    var spare: array<bytes>
    var spareLen: nat

    ghost predicate Valid()
      reads this
    {
      pending != spare && pendingLen <= pending.Length && spareLen <= spare.Length
    }

    /** Lines waiting for the next drain. */
    ghost function Pending(): seq<bytes>
      requires Valid()
      reads this, pending
    {
      pending[..pendingLen]
    }

    /** The batch of the last drain. */
    ghost function InFlight(): seq<bytes>
      requires Valid()
      reads this, spare
    {
      spare[..spareLen]
    }

    constructor ()
      ensures Valid() && fresh(pending) && fresh(spare)
      ensures Pending() == [] && InFlight() == []
    {
      var a, b := new bytes[0], new bytes[0];
      pending, spare := a, b;
      pendingLen, spareLen := 0, 0;
    }

    /** Go's append: in place when the array has room, else into a larger copy. */
    method Add(line: bytes)
      requires Valid()
      modifies this, pending
      ensures Valid() && (pending == old(pending) || fresh(pending))
      ensures spare == old(spare) && spareLen == old(spareLen)
      ensures Pending() == old(Pending()) + [line]
      ensures InFlight() == old(InFlight())
    {
      if pendingLen == pending.Length {
        var bigger := new bytes[2 * pending.Length + 1](_ => []);
        for i := 0 to pendingLen
          invariant bigger[..i] == pending[..i]
          invariant pending[..] == old(pending[..]) && spare[..] == old(spare[..])
          modifies bigger
        {
          bigger[i] := pending[i];
        }
        pending := bigger;
      }
      pending[pendingLen] := line;
      pendingLen := pendingLen + 1;
    }

    /** Everything pending becomes the batch; the old batch's array is reused for new lines. */
    method Swap()
      requires Valid()
      modifies this
      ensures Valid() && pending == old(spare) && spare == old(pending)
      ensures Pending() == [] && InFlight() == old(Pending())
    {
      pending, spare := spare, pending;
      pendingLen, spareLen := 0, pendingLen;
    }

    /** Forgets the lines of the finished batch without touching the pending ones. */
    method ClearBatch()
      requires Valid()
      modifies spare
      ensures Pending() == old(Pending())
      ensures forall i :: 0 <= i < spareLen ==> spare[i] == []
    {
      for i := 0 to spareLen
        invariant forall j :: 0 <= j < i ==> spare[j] == []
      {
        spare[i] := [];
      }
    }

    /** The bytes one log write appends for the batch. */
    method Join() returns (buf: bytes)
      requires Valid()
      ensures buf == JoinLines(InFlight())
    {
      buf := [];
      for i := 0 to spareLen
        invariant buf == JoinLines(InFlight()[..i])
      {
        assert InFlight()[..i + 1] == InFlight()[..i] + [spare[i]];
        JoinConcat(InFlight()[..i], [spare[i]]);
        assert JoinLines([spare[i]]) == spare[i] + "\n";
        buf := buf + spare[i] + "\n";
      }
      assert InFlight()[..spareLen] == InFlight();
    }
  }
}
