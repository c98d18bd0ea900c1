/** The block number the market data writes and an execution cycle reads (crates/storage/src/lib.rs
    and its Redis twin): writing keeps the greater of the stored number and the new one. */
module CurrentBlock {
  import opened Wrappers
  import opened U256Math

  /** What is stored after the writes, in order. */
  function Stored(writes: seq<U64>): Option<U64>
    decreases |writes|
  {
    if writes == [] then None
    else
      var before, last := Stored(writes[..|writes| - 1]), writes[|writes| - 1];
      Some(if before.Some? && before.value > last then before.value else last)
  }

  /** The greatest of all the numbers ever written. */
  lemma {:induction false} StoredIsGreatest(writes: seq<U64>)
    ensures Stored(writes).None? <==> writes == []
    ensures Stored(writes).Some? ==>
              Stored(writes).value in writes && forall b :: b in writes ==> b <= Stored(writes).value
    decreases |writes|
  {
    if writes != [] {
      var before := writes[..|writes| - 1];
      StoredIsGreatest(before);
      assert writes == before + [writes[|writes| - 1]];
    }
  }

  /** No list of further writes makes the stored number fall. */
  lemma StoredNeverFalls(writes: seq<U64>, more: seq<U64>)
    requires writes != []
    ensures Stored(writes).Some? && Stored(writes + more).Some?
    ensures Stored(writes).value <= Stored(writes + more).value
  {
    StoredIsGreatest(writes);
    StoredIsGreatest(writes + more);
    assert Stored(writes).value in writes + more;
  }

  class CurrentBlockStore {
    var current: Option<U64>
    /** Every number written so far, in order. */
    ghost var writes: seq<U64>

    ghost predicate Valid()
      reads this
    {
      current == Stored(writes)
    }

    constructor ()
      ensures Valid() && writes == []
    {
      current, writes := None, [];
    }

    method SetCurrentBlock(b: U64)
      requires Valid()
      modifies this
      ensures Valid() && writes == old(writes) + [b]
    {
      current := Some(if current.Some? && current.value > b then current.value else b);
      writes := writes + [b];
      assert writes[..|writes| - 1] == old(writes);
    }

    method GetCurrentBlock() returns (b: Option<U64>)
      requires Valid()
      ensures b == Stored(writes)
    {
      return current;
    }
  }
}
