/** The conversation-id allocator of the older tree: ids are the 256 values of
    a byte; new ids are searched upward from the last one handed out, wrapping
    round, and registered or released explicitly. */
module ConversationIds {
  import opened ArqBasics

  const ID_SPACE: nat := 256

  /** Number of increments (1..256) that take a byte counter from `from` to
      `to`, wrapping round. */
  function Steps(from: Byte, to: Byte): (r: nat)
    ensures 1 <= r <= ID_SPACE
    ensures (from + r) % ID_SPACE == to
  {
    (to - from - 1) % ID_SPACE + 1
  }

  /** The id reached from `from` after k increments. */
  function Offset(from: Byte, k: int): Byte {
    (from + k) % ID_SPACE
  }

  /** Every byte value in the integer range [0, n). */
  ghost function BytesBelow(n: nat): (r: set<Byte>)
    requires n <= ID_SPACE
    ensures |r| == n
    ensures forall x: Byte :: x in r <==> x < n
  {
    if n == 0 then {} else BytesBelow(n - 1) + {n - 1}
  }

  /** Fewer than 256 ids allocated means some id is free; and at most 256
      ids can ever be allocated. */
  lemma {:induction false} AllocatedBound(ids: set<Byte>)
    ensures |ids| <= ID_SPACE
    ensures |ids| < ID_SPACE ==> exists x: Byte :: x !in ids
  {
    var all := BytesBelow(ID_SPACE);
    var rest := all - ids;
    assert ids + rest == all;
    assert ids * rest == {};
    if |ids| < ID_SPACE {
      assert rest != {};
      var x :| x in rest;
    }
  }

  lemma StepsOfOffset(from: Byte, j: nat)
    requires 1 <= j <= ID_SPACE
    ensures Steps(from, Offset(from, j)) == j
  {
  }

  lemma OffsetNext(from: Byte, j: int)
    ensures Offset(from, j + 1) == (Offset(from, j) + 1) % ID_SPACE
  {
  }

  class ConversationIdAllocator {
    var lastAllocated: Byte
    var allocatedIds: set<Byte>

    constructor ()
      ensures lastAllocated == 0 && allocatedIds == {}
    {
      lastAllocated := 0;
      allocatedIds := {};
    }

    /** getNewID: with all 256 ids taken, ConversationIDError and no change;
        otherwise the first free id after lastAllocated (wrapping) is taken,
        recorded as lastAllocated and returned. */
    method GetNewId() returns (r: Result<Byte>)
      modifies this
      ensures |old(allocatedIds)| == ID_SPACE ==>
                r == Err(ConversationIdError) && allocatedIds == old(allocatedIds) && lastAllocated == old(lastAllocated)
      ensures |old(allocatedIds)| < ID_SPACE ==> r.Ok?
      ensures r.Ok? ==> r.value !in old(allocatedIds) && allocatedIds == old(allocatedIds) + {r.value}
      ensures r.Ok? ==> lastAllocated == r.value
      ensures r.Ok? ==> forall k :: 1 <= k < Steps(old(lastAllocated), r.value) ==>
                          Offset(old(lastAllocated), k) in old(allocatedIds)
      ensures |old(allocatedIds)| < ID_SPACE && Offset(old(lastAllocated), 1) !in old(allocatedIds) ==>
                r == Ok(Offset(old(lastAllocated), 1))
    {
      if |allocatedIds| == ID_SPACE {
        return Err(ConversationIdError);
      }
      AllocatedBound(allocatedIds);
      ghost var free :| free !in allocatedIds;
      ghost var start := lastAllocated;
      ghost var toFree := Steps(start, free);
      ghost var j: nat := 1;
      lastAllocated := (lastAllocated + 1) % ID_SPACE;
      while lastAllocated in allocatedIds
        invariant 1 <= j <= toFree
        invariant allocatedIds == old(allocatedIds)
        invariant lastAllocated == Offset(start, j)
        invariant forall k :: 1 <= k < j ==> Offset(start, k) in allocatedIds
        decreases toFree - j
      {
        OffsetNext(start, j);
        j := j + 1;
        lastAllocated := (lastAllocated + 1) % ID_SPACE;
      }
      StepsOfOffset(start, j);
      allocatedIds := allocatedIds + {lastAllocated};
      r := Ok(lastAllocated);
    }

    /** registerID: true iff the id was not yet allocated; it is afterwards. */
    method RegisterId(id: Byte) returns (inserted: bool)
      modifies this
      ensures inserted <==> id !in old(allocatedIds)
      ensures allocatedIds == old(allocatedIds) + {id} && lastAllocated == old(lastAllocated)
    {
      inserted := id !in allocatedIds;
      allocatedIds := allocatedIds + {id};
    }

    /** releaseID: true iff the id was allocated; it is not afterwards. */
    method ReleaseId(id: Byte) returns (erased: bool)
      modifies this
      ensures erased <==> id in old(allocatedIds)
      ensures allocatedIds == old(allocatedIds) - {id} && lastAllocated == old(lastAllocated)
    {
      erased := id in allocatedIds;
      allocatedIds := allocatedIds - {id};
    }
  }

  /** A fresh allocator hands out 1, then 2; after 1 is released and 3 is
      registered, the search continues upward past 3 and gives 4, not the
      released 1. */
  method AllocationOrder() returns (first: Result<Byte>, second: Result<Byte>, third: Result<Byte>)
    ensures first == Ok(1) && second == Ok(2) && third == Ok(4)
  {
    var allocator := new ConversationIdAllocator();
    first := allocator.GetNewId();
    second := allocator.GetNewId();
    var released := allocator.ReleaseId(1);
    var registered := allocator.RegisterId(3);
    third := allocator.GetNewId();
    assert Offset(2, 2) == 4 && Offset(2, 1) == 3;
  }
}
