/**
 * Client code: what a caller can conclude from the contracts of `Vector`
 * alone, on the container's documented usage scenarios.
 */
module Scenarios {
  import opened Errors
  import opened Storage
  import opened Vectors

  /** Three appends to an empty vector read back in order. */
  method PushThree()
  {
    var v := new Vector<int>();
    v.PushBack(1);
    v.PushBack(2);
    v.PushBack(3);
    assert v.Contents() == [1, 2, 3];
    assert v.Size() == 3 && v.Capacity() == 4;
  }

  /** Erasing `[begin + 1, begin + 3)` from 1..5 leaves 1, 4, 5. */
  method EraseMiddle()
  {
    var v := new Vector<int>.FromSeq([1, 2, 3, 4, 5]);
    var b := v.Begin();
    var i1 := b.Plus(1);
    var i3 := b.Plus(3);
    var r := v.Erase(i1.value, i3.value);
    assert v.Contents() == [1, 4, 5];
    assert r == Success(FwdIter(v, 1));
  }

  /** Inserting 99 at `begin + 1` into 1, 2, 3 gives 1, 99, 2, 3. */
  method InsertMiddle()
  {
    var v := new Vector<int>.FromSeq([1, 2, 3]);
    var i1 := v.Begin().Plus(1);
    var r := v.Insert(i1.value, 99);
    assert v.Contents() == [1, 99, 2, 3];
    assert r.Success? && r.value.Deref() == Success(99);
  }

  /** `pop_back` on an empty vector reports `PopEmptyVector`. */
  method PopEmpty()
  {
    var v := new Vector<int>();
    var r := v.PopBack();
    assert r == Fail(PopEmptyVector);
  }

  /** Writing into a copy leaves the original alone. */
  method CopyIsIndependent()
  {
    var a := new Vector<int>.FromSeq([1, 2, 3]);
    var b := new Vector<int>.CopyOf(a);
    var r := b.Set(0, 100);
    assert b.Contents() == [100, 2, 3];
    assert a.Contents() == [1, 2, 3];
  }

  /** `reserve(100)` grows the block and keeps the elements. */
  method ReserveKeepsElements()
  {
    var v := new Vector<int>.FromSeq([1, 2, 3]);
    v.Reserve(100);
    assert v.Capacity() == 100 && v.Contents() == [1, 2, 3];
  }

  /** An iterator of another vector is refused by `insert`. */
  method ForeignIterator()
  {
    var a := new Vector<int>.FromSeq([1]);
    var b := new Vector<int>();
    var r := b.Insert(a.Begin(), 7);
    assert r == Failure(DiffVectors);
    assert b.Contents() == [];
  }

  /** Inserting into a copy, then writing through `operator[]`, leaves the
      original alone. */
  method CopyInsertThenWrite()
  {
    var a := new Vector<int>.FromSeq([1, 2, 3]);
    var b := new Vector<int>.CopyOf(a);
    var r := b.Insert(b.Begin(), 0);
    var w := b.Set(0, 100);
    assert b.Contents() == [100, 1, 2, 3];
    assert a.Contents() == [1, 2, 3];
  }

  /** Inserting one of the vector's own elements at `begin`: the value is
      taken at the call, so `insert(begin(), v[1])` on 1, 2, 3 gives
      2, 1, 2, 3. */
  method InsertOwnElement()
  {
    var v := new Vector<int>.FromSeq([1, 2, 3]);
    v.Reserve(4);
    var x := v.Get(1);
    var r := v.Insert(v.Begin(), x.value);
    assert v.Contents() == [2, 1, 2, 3];
  }

  /** Mutators can be chained on one vector: each leaves a block the next
      may write to. */
  method RepeatedMutations()
  {
    var v := new Vector<int>();
    var s0 := v.EmplaceBack(1);
    var s1 := v.EmplaceBack(2);
    var r0 := v.Insert(v.Begin(), 0);
    var r1 := v.Insert(v.End(), 3);
    assert v.Contents() == [0, 1, 2, 3];
    v.Resize(6, 9);
    v.Resize(2, 9);
    assert v.Contents() == [0, 1];
    v.CopyAssign(v);
    var w := v.Set(1, 7);
    assert v.Contents() == [0, 7];
  }

  /** `n` appends to an empty vector, tracked against the append recurrence:
      the vector ends with the pushed values, and its capacity and relocation
      count obey the amortized bound. */
  method AppendMany(n: nat) returns (v: Vector<int>)
    ensures v.Valid() && v.Contents() == seq(n, k => k)
    ensures n > 0 ==> v.relocations < 2 * n - 1 && v.capacity < 2 * n
  {
    v := new Vector<int>();
    var i := 0;
    while i < n
      invariant 0 <= i <= n
      invariant v.Valid() && fresh(v) && fresh(v.storage)
      invariant v.Contents() == seq(i, k => k)
      invariant v.capacity == PushesFromEmpty(i).capacity
      invariant v.relocations == PushesFromEmpty(i).moves
    {
      v.PushBack(i);
      i := i + 1;
    }
    AmortizedPushCost(n);
  }
}
