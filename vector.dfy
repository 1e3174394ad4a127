/**
 * `Vector<T>`: a contiguous dynamic array over an owned block of slots, with
 * fail-fast forward and reverse iterators.
 *
 * The block is an `array<T>` whose length is the capacity; the live elements
 * are the slots `[0, size)`.  Iterators are values holding the identity of the
 * vector that produced them and an integer slot position (forward iterators
 * range over `[0, size]`, reverse iterators over `[-1, size - 1]`, where `-1`
 * is `rend`).  Every `err::exit_if` of the source is an error result that
 * names the violated condition.
 */
module Vectors {
  import opened Errors
  import opened Storage

  class Vector<T(0)> {
    var storage: array<T>
    var size: nat
    var capacity: nat
    /** Elements relocated into fresh blocks since construction (accounting only). */
    ghost var relocations: nat

    /** `size <= capacity` and the block holds exactly `capacity` slots. */
    ghost predicate Valid()
      reads this
    {
      storage.Length == capacity && size <= capacity
    }

    /** The live elements, in index order. */
    ghost function Contents(): seq<T>
      reads this, storage
      requires Valid()
    {
      storage[..size]
    }

    // ---------------------------------------------------------------
    // Construction, copy, move
    // ---------------------------------------------------------------

    /** Default construction: empty, capacity 0. */
    constructor ()
      ensures Valid() && fresh(storage)
      ensures Contents() == [] && capacity == 0 && relocations == 0
    {
      storage := new T[0];
      size, capacity := 0, 0;
      relocations := 0;
    }

    /** Sized construction: `n` copies of the default value of `T`. */
    constructor Sized(n: nat)
      ensures Valid() && fresh(storage)
      ensures |Contents()| == n && capacity == n && relocations == 0
      ensures forall i, j :: 0 <= i < n && 0 <= j < n ==> Contents()[i] == Contents()[j]
    {
      storage := new T[n];
      size, capacity := n, n;
      relocations := 0;
      new;
      var d: T := *;  // the default value of T
      UninitializedFill(d);
    }

    /** Sized construction with a value: `n` copies of `v`. */
    constructor Filled(n: nat, v: T)
      ensures Valid() && fresh(storage)
      ensures Contents() == seq(n, _ => v) && capacity == n && relocations == 0
    {
      storage := new T[n];
      size, capacity := n, n;
      relocations := 0;
      new;
      UninitializedFill(v);
    }

    /** Literal-list and forward-range construction: one live element per
        entry, in order, in a block of exactly that many slots. */
    constructor FromSeq(init: seq<T>)
      ensures Valid() && fresh(storage)
      ensures Contents() == init && capacity == |init| && relocations == 0
    {
      storage := new T[|init|];
      size, capacity := |init|, |init|;
      relocations := 0;
      new;
      var i := 0;
      while i < |init|
        invariant 0 <= i <= |init|
        invariant storage[..i] == init[..i]
        modifies storage
      {
        storage[i] := init[i];
        i := i + 1;
      }
    }

    /** Copy construction: a fresh block of the source's capacity holding the
        source's live elements; the source is not touched. */
    constructor CopyOf(rhs: Vector<T>)
      requires rhs.Valid()
      ensures Valid() && fresh(storage)
      ensures Contents() == rhs.Contents() && capacity == rhs.capacity && relocations == 0
    {
      storage := new T[rhs.capacity];
      size, capacity := rhs.size, rhs.capacity;
      relocations := 0;
      new;
      var i := 0;
      while i < size
        invariant 0 <= i <= size
        invariant storage[..i] == rhs.storage[..i]
        modifies storage
      {
        storage[i] := rhs.storage[i];
        i := i + 1;
      }
    }

    /** Move construction: takes over the source's block; the source is left
        empty with a fresh zero-capacity block. */
    constructor MoveFrom(rhs: Vector<T>)
      requires rhs.Valid()
      modifies rhs
      ensures Valid() && rhs.Valid()
      ensures storage == old(rhs.storage) && Contents() == old(rhs.Contents())
      ensures capacity == old(rhs.capacity) && relocations == 0
      ensures rhs.Contents() == [] && rhs.capacity == 0 && fresh(rhs.storage)
      ensures rhs.relocations == old(rhs.relocations)
    {
      storage := rhs.storage;
      capacity := rhs.capacity;
      size := rhs.size;
      relocations := 0;
      new;
      rhs.Construct(0);
    }

    /** Copy assignment: as copy construction, except that self-assignment
        does nothing. */
    method CopyAssign(rhs: Vector<T>)
      requires Valid() && rhs.Valid()
      modifies this
      ensures Valid()
      ensures Contents() == old(rhs.Contents()) && capacity == old(rhs.capacity)
      ensures rhs != this ==> fresh(storage)
      ensures rhs == this ==> storage == old(storage)
      ensures relocations == old(relocations)
    {
      if this != rhs {
        storage := new T[rhs.capacity];
        size, capacity := rhs.size, rhs.capacity;
        var i := 0;
        while i < size
          invariant 0 <= i <= size == rhs.size
          invariant storage.Length == capacity == rhs.capacity
          invariant storage[..i] == rhs.storage[..i]
          modifies storage
        {
          storage[i] := rhs.storage[i];
          i := i + 1;
        }
      }
    }

    /** Move assignment: takes over `rhs`'s block and leaves `rhs` empty;
        self-move-assignment does nothing. */
    method MoveAssign(rhs: Vector<T>)
      requires Valid() && rhs.Valid()
      modifies this, rhs
      ensures Valid() && rhs.Valid()
      ensures rhs == this ==> Contents() == old(Contents()) && capacity == old(capacity) && storage == old(storage)
      ensures rhs != this ==> storage == old(rhs.storage) && Contents() == old(rhs.Contents()) && capacity == old(rhs.capacity)
      ensures rhs != this ==> rhs.Contents() == [] && rhs.capacity == 0 && fresh(rhs.storage)
      ensures rhs != this ==> rhs.relocations == old(rhs.relocations)
      ensures relocations == old(relocations)
    {
      if this != rhs {
        storage := rhs.storage;
        capacity := rhs.capacity;
        size := rhs.size;
        rhs.Construct(0);
      }
    }

    /** `assign(it1, it2)`: the contents become the range, in a block of
        exactly its length. */
    method Assign(s: seq<T>)
      requires Valid()
      modifies this
      ensures Valid() && fresh(storage)
      ensures Contents() == s && capacity == |s|
      ensures relocations == old(relocations)
    {
      Construct(|s|);
      var i := 0;
      while i < |s|
        invariant 0 <= i <= |s|
        invariant Valid() && size == |s| && fresh(storage)
        invariant relocations == old(relocations)
        invariant storage[..i] == s[..i]
        modifies storage
      {
        storage[i] := s[i];
        i := i + 1;
      }
    }

    /** `fill(v)`: every live element becomes `v`; size and capacity are kept. */
    method Fill(v: T)
      requires Valid()
      modifies storage
      ensures Valid()
      ensures Contents() == seq(size, _ => v)
      ensures storage[size..] == old(storage[size..])
    {
      UninitializedFill(v);
    }

    // ---------------------------------------------------------------
    // Observers and checked access
    // ---------------------------------------------------------------

    function Size(): (n: nat)
      reads this, storage
      requires Valid()
      ensures n == |Contents()| <= capacity
    {
      size
    }

    function Capacity(): (c: nat)
      reads this, storage
      requires Valid()
      ensures c == storage.Length >= |Contents()|
    {
      capacity
    }

    function Empty(): (b: bool)
      reads this, storage
      requires Valid()
      ensures b <==> Contents() == []
    {
      size == 0
    }

    /** `front()`: the first element, or `FrontEmptyVector` on an empty vector. */
    function Front(): (r: Result<T>)
      reads this, storage
      requires Valid()
      ensures r.Failure? <==> Contents() == []
      ensures r.Failure? ==> r.error == FrontEmptyVector
      ensures r.Success? ==> r.value == Contents()[0]
    {
      if size == 0 then Failure(FrontEmptyVector) else Success(storage[0])
    }

    /** `back()`: the last element, or `BackEmptyVector` on an empty vector. */
    function Back(): (r: Result<T>)
      reads this, storage
      requires Valid()
      ensures r.Failure? <==> Contents() == []
      ensures r.Failure? ==> r.error == BackEmptyVector
      ensures r.Success? ==> r.value == Contents()[|Contents()| - 1]
    {
      if size == 0 then Failure(BackEmptyVector) else Success(storage[size - 1])
    }

    /** `operator[]`: the element at `index`, or `SubscriptOutOfRange` when
        `index >= size`. */
    function Get(index: nat): (r: Result<T>)
      reads this, storage
      requires Valid()
      ensures r.Failure? <==> index >= |Contents()|
      ensures r.Failure? ==> r.error == SubscriptOutOfRange
      ensures r.Success? ==> r.value == Contents()[index]
    {
      if index >= size then Failure(SubscriptOutOfRange) else Success(storage[index])
    }

    /** `at(index)`: the same check as `operator[]`. */
    function At(index: nat): (r: Result<T>)
      reads this, storage
      requires Valid()
      ensures r.Failure? <==> index >= |Contents()|
      ensures r.Failure? ==> r.error == SubscriptOutOfRange
      ensures r.Success? ==> r.value == Contents()[index]
    {
      Get(index)
    }

    /** Writing through the reference `operator[]` returns: only slot `index`
        changes. */
    method Set(index: nat, v: T) returns (r: Outcome)
      requires Valid()
      modifies storage
      ensures Valid()
      ensures r.Fail? <==> index >= size
      ensures r.Fail? ==> r.error == SubscriptOutOfRange && Contents() == old(Contents())
      ensures r.Pass? ==> Contents() == old(Contents())[index := v]
    {
      if index >= size {
        return Fail(SubscriptOutOfRange);
      }
      storage[index] := v;
      r := Pass;
    }

    // ---------------------------------------------------------------
    // Growth and appends
    // ---------------------------------------------------------------

    /** `re_alloc(newCap)`: move the live elements, in index order, into a
        fresh block of `newCap` slots. */
    method ReAlloc(newCap: nat)
      requires Valid() && size <= newCap
      modifies this
      ensures Valid() && fresh(storage)
      ensures Contents() == old(Contents()) && capacity == newCap
      ensures relocations == old(relocations) + old(size)
    {
      Relocate(newCap, size);
    }

    /** `push_back(v)`: grow by doubling (floor 1) when full, then append `v`. */
    method PushBack(v: T)
      requires Valid()
      modifies this, storage
      ensures Valid()
      ensures Contents() == old(Contents()) + [v]
      ensures capacity == CapacityForPush(old(size), old(capacity))
      ensures relocations == old(relocations) + MovesForPush(old(size), old(capacity))
      ensures ShouldReAlloc(old(size), old(capacity), 1) ==> fresh(storage)
      ensures !ShouldReAlloc(old(size), old(capacity), 1) ==> storage == old(storage)
    {
      if ShouldReAlloc(size, capacity, 1) {
        ReAlloc(DoubleCapacity0Prevented(capacity));
      }
      storage[size] := v;
      size := size + 1;
    }

    /** `emplace_back(v)`: as `push_back`, returning the slot of the element
        just constructed. */
    method EmplaceBack(v: T) returns (slot: nat)
      requires Valid()
      modifies this, storage
      ensures Valid()
      ensures Contents() == old(Contents()) + [v]
      ensures slot == old(size) && slot < size && Contents()[slot] == v
      ensures capacity == CapacityForPush(old(size), old(capacity))
      ensures relocations == old(relocations) + MovesForPush(old(size), old(capacity))
      ensures ShouldReAlloc(old(size), old(capacity), 1) ==> fresh(storage)
      ensures !ShouldReAlloc(old(size), old(capacity), 1) ==> storage == old(storage)
    {
      PushBack(v);
      slot := size - 1;
    }

    /** `insert(it, v)`: `v` enters at the iterator's index, which is taken
        before any reallocation; the elements from there on move one slot
        toward the back.  Fails with `DiffVectors` for another vector's
        iterator. */
    method Insert(it: FwdIter<T>, v: T) returns (r: Result<FwdIter<T>>)
      requires Valid()
      requires it.owner == this ==> 0 <= it.pos <= size
      modifies this, storage
      ensures Valid()
      ensures it.owner != this ==> r == Failure(DiffVectors)
      ensures it.owner != this ==> Contents() == old(Contents()) && capacity == old(capacity)
      ensures it.owner != this ==> relocations == old(relocations) && storage == old(storage)
      ensures it.owner == this ==> r == Success(FwdIter(this, it.pos))
      ensures it.owner == this ==>
        Contents() == old(Contents())[..it.pos] + [v] + old(Contents())[it.pos..]
      ensures it.owner == this ==> capacity == CapacityForPush(old(size), old(capacity))
      ensures it.owner == this ==> relocations == old(relocations) + MovesForPush(old(size), old(capacity))
      ensures it.owner == this && ShouldReAlloc(old(size), old(capacity), 1) ==> fresh(storage)
      ensures it.owner == this && !ShouldReAlloc(old(size), old(capacity), 1) ==> storage == old(storage)
    {
      if it.owner != this {
        return Failure(DiffVectors);
      }
      var index := it.pos;  // taken before any reallocation
      InsertAt(index, v);
      r := Success(FwdIter(this, index));
    }

    /** `emplace(it, v)`: as `insert`; the new element is constructed in its
        slot rather than copied there, which a value model does not tell apart. */
    method Emplace(it: FwdIter<T>, v: T) returns (r: Result<FwdIter<T>>)
      requires Valid()
      requires it.owner == this ==> 0 <= it.pos <= size
      modifies this, storage
      ensures Valid()
      ensures it.owner != this ==> r == Failure(DiffVectors)
      ensures it.owner != this ==> Contents() == old(Contents()) && capacity == old(capacity)
      ensures it.owner != this ==> relocations == old(relocations) && storage == old(storage)
      ensures it.owner == this ==> r == Success(FwdIter(this, it.pos))
      ensures it.owner == this ==>
        Contents() == old(Contents())[..it.pos] + [v] + old(Contents())[it.pos..]
      ensures it.owner == this ==> capacity == CapacityForPush(old(size), old(capacity))
      ensures it.owner == this ==> relocations == old(relocations) + MovesForPush(old(size), old(capacity))
      ensures it.owner == this && ShouldReAlloc(old(size), old(capacity), 1) ==> fresh(storage)
      ensures it.owner == this && !ShouldReAlloc(old(size), old(capacity), 1) ==> storage == old(storage)
    {
      r := Insert(it, v);
    }

    // ---------------------------------------------------------------
    // Removal and capacity management
    // ---------------------------------------------------------------

    /** `pop_back()`: drops the last element; capacity and block are kept.
        Fails with `PopEmptyVector` on an empty vector. */
    method PopBack() returns (r: Outcome)
      requires Valid()
      modifies this
      ensures Valid() && storage == old(storage) && capacity == old(capacity)
      ensures r.Fail? <==> old(size) == 0
      ensures r.Fail? ==> r.error == PopEmptyVector && Contents() == old(Contents())
      ensures r.Pass? ==> Contents() == old(Contents())[..old(size) - 1]
      ensures relocations == old(relocations)
    {
      if size == 0 {
        return Fail(PopEmptyVector);
      }
      size := size - 1;
      r := Pass;
    }

    /** `reserve(n)`: reallocate to exactly `n` slots when `n` exceeds the
        capacity; never shrinks and never changes the elements. */
    method Reserve(n: nat)
      requires Valid()
      modifies this
      ensures Valid()
      ensures Contents() == old(Contents())
      ensures capacity == if n > old(capacity) then n else old(capacity)
      ensures n > old(capacity) ==> fresh(storage) && relocations == old(relocations) + old(size)
      ensures n <= old(capacity) ==> storage == old(storage) && relocations == old(relocations)
    {
      if n > capacity {
        ReAlloc(n);
      }
    }

    /** `resize(n, v)`: truncate to `n` elements, or append copies of `v` up to
        `n`, reallocating to exactly `n` slots when `n` exceeds the capacity. */
    method Resize(n: nat, v: T)
      requires Valid()
      modifies this, storage
      ensures Valid()
      ensures Contents() == if n <= old(size) then old(Contents())[..n]
                            else old(Contents()) + seq(n - old(size), _ => v)
      ensures capacity == if n > old(capacity) then n else old(capacity)
      ensures n < old(size) || n > old(capacity) ==> fresh(storage)
      ensures old(size) <= n <= old(capacity) ==> storage == old(storage)
      ensures relocations == old(relocations) +
        (if n < old(size) then n else if n > old(capacity) then old(size) else 0)
    {
      if n == size {
        return;
      }
      if n < size {
        Relocate(capacity, n);
        return;
      }
      if ShouldReAlloc(size, capacity, n - size) {
        ReAlloc(n);
      }
      ghost var s := Contents();
      var i := size;
      while i < n
        invariant size <= i <= n <= capacity
        invariant Valid() && Contents() == s
        invariant forall j :: size <= j < i ==> storage[j] == v
        modifies storage
      {
        storage[i] := v;
        i := i + 1;
      }
      ghost var oldSize := size;
      size := n;
      assert Contents() == s + seq(n - oldSize, _ => v);
    }

    /** `shrink_to_fit()`: reallocate to exactly `size` slots when there is slack. */
    method ShrinkToFit()
      requires Valid()
      modifies this
      ensures Valid()
      ensures Contents() == old(Contents()) && capacity == size
      ensures old(capacity) > old(size) ==> fresh(storage)
      ensures old(capacity) == old(size) ==> storage == old(storage)
      ensures relocations == old(relocations) + (if old(capacity) > old(size) then old(size) else 0)
    {
      if capacity > size {
        ReAlloc(size);
      }
    }

    /** `clear()`: destroys every element and starts over with a fresh
        zero-capacity block. */
    method Clear()
      requires Valid()
      modifies this
      ensures Valid() && fresh(storage)
      ensures Contents() == [] && capacity == 0
      ensures relocations == old(relocations)
    {
      Construct(0);
    }

    /** `swap(other)`: exchange blocks, sizes and capacities, moving no element. */
    method Swap(other: Vector<T>)
      requires Valid() && other.Valid()
      modifies this, other
      ensures Valid() && other.Valid()
      ensures storage == old(other.storage) && other.storage == old(storage)
      ensures Contents() == old(other.Contents()) && other.Contents() == old(Contents())
      ensures capacity == old(other.capacity) && other.capacity == old(capacity)
      ensures relocations == old(relocations) && other.relocations == old(other.relocations)
    {
      var s, n, c := storage, size, capacity;
      storage, size, capacity := other.storage, other.size, other.capacity;
      other.storage, other.size, other.capacity := s, n, c;
    }

    /** `erase(it1, it2)`: removes `[it1, it2)` and closes the gap, keeping the
        order of the rest; returns an iterator to the element now following the
        removed range.  Fails with `DiffVectors` unless both iterators belong to
        this vector, and with `DerefEnd` when `it1` lies after `it2` (the
        destruction walk from `it1` reaches `end()`). */
    method Erase(it1: FwdIter<T>, it2: FwdIter<T>) returns (r: Result<FwdIter<T>>)
      requires Valid()
      requires it1.owner == this && it2.owner == this ==>
        0 <= it1.pos <= size && 0 <= it2.pos <= size
      modifies this, storage
      ensures Valid() && storage == old(storage) && capacity == old(capacity)
      ensures relocations == old(relocations)
      ensures it1.owner != it2.owner || it1.owner != this ==>
        r == Failure(DiffVectors) && Contents() == old(Contents())
      ensures it1.owner == it2.owner == this && it1.pos == it2.pos ==>
        r == Success(it2) && Contents() == old(Contents())
      ensures it1.owner == it2.owner == this && it1.pos > it2.pos ==>
        r == Failure(DerefEnd) && Contents() == old(Contents())
      ensures it1.owner == it2.owner == this && it1.pos < it2.pos ==>
        r == Success(it1) &&
        Contents() == old(Contents())[..it1.pos] + old(Contents())[it2.pos..]
    {
      if it1.owner != it2.owner || it1.owner != this {
        return Failure(DiffVectors);
      }
      if it1.pos == it2.pos {
        return Success(it2);
      }
      var a, b := it1.pos, it2.pos;
      if a > b {
        return Failure(DerefEnd);
      }
      ghost var s := Contents();
      var k := 0;
      while b + k < size
        invariant 0 <= k <= size - b
        invariant Valid() && |s| == size
        invariant forall j :: 0 <= j < a ==> storage[j] == s[j]
        invariant forall j :: a <= j < a + k ==> storage[j] == s[j + (b - a)]
        invariant forall j :: b + k <= j < size ==> storage[j] == s[j]
        modifies storage
      {
        storage[a + k] := storage[b + k];
        k := k + 1;
      }
      size := size - (b - a);
      assert Contents() == s[..a] + s[b..];
      r := Success(it1);
    }

    // ---------------------------------------------------------------
    // Iteration entry points
    // ---------------------------------------------------------------

    function Begin(): (it: FwdIter<T>)
      reads this
      requires Valid()
      ensures it.owner == this && it.IsBegin() && it.InBounds()
      ensures size == 0 ==> it.IsEnd()
    {
      FwdIter(this, 0)
    }

    function End(): (it: FwdIter<T>)
      reads this
      requires Valid()
      ensures it.owner == this && it.IsEnd() && it.InBounds()
      ensures it.pos == size
    {
      FwdIter(this, size)
    }

    /** `rbegin()`: addresses the last live element, or `rend` when empty. */
    function RBegin(): (it: RevIter<T>)
      reads this
      requires Valid()
      ensures it.owner == this && it.IsRBegin() && it.InBounds()
      ensures it.pos == size - 1
      ensures size == 0 ==> it.IsREnd()
    {
      RevIter(this, size - 1)
    }

    /** `rend()`: the sentinel one before the first slot. */
    function REnd(): (it: RevIter<T>)
      reads this
      requires Valid()
      ensures it.owner == this && it.IsREnd() && it.InBounds()
    {
      RevIter(this, -1)
    }

    // ---------------------------------------------------------------
    // Private helpers
    // ---------------------------------------------------------------

    /** `construct(cap)`: a fresh block of `cap` slots, all of them counted as
        live (their values are whatever the new block holds). */
    method Construct(cap: nat)
      modifies this
      ensures Valid() && fresh(storage)
      ensures size == cap && capacity == cap
      ensures relocations == old(relocations)
    {
      storage := new T[cap];
      capacity := cap;
      size := capacity;
    }

    /** The body of `insert`/`emplace` once the owner is checked: grow if
        full, open a gap at `index`, put `v` there. */
    method InsertAt(index: nat, v: T)
      requires Valid() && index <= size
      modifies this, storage
      ensures Valid()
      ensures Contents() == old(Contents())[..index] + [v] + old(Contents())[index..]
      ensures capacity == CapacityForPush(old(size), old(capacity))
      ensures relocations == old(relocations) + MovesForPush(old(size), old(capacity))
      ensures ShouldReAlloc(old(size), old(capacity), 1) ==> fresh(storage)
      ensures !ShouldReAlloc(old(size), old(capacity), 1) ==> storage == old(storage)
    {
      if ShouldReAlloc(size, capacity, 1) {
        ReAlloc(DoubleCapacity0Prevented(capacity));
      }
      PlaceAt(index, v);
    }

    /** With room for one more element: open a gap at `index` and put `v`
        there, in the same block. */
    method PlaceAt(index: nat, v: T)
      requires Valid() && index <= size < capacity
      modifies this, storage
      ensures Valid() && storage == old(storage) && capacity == old(capacity)
      ensures relocations == old(relocations)
      ensures Contents() == old(Contents())[..index] + [v] + old(Contents())[index..]
    {
      ghost var s := Contents();
      ShiftUp(index);
      assert storage[..index] == s[..index];
      assert storage[index + 1..size + 1] == s[index..];
      storage[index] := v;
      assert storage[..index] == s[..index];
      assert storage[index + 1..size + 1] == s[index..];
      size := size + 1;
      assert Contents() == storage[..index] + [v] + storage[index + 1..size];
    }

    /** The backward loop of `insert`/`emplace`: the elements at `[index, size)`
        move one slot up, starting from the back so that none is overwritten
        before it is read. */
    method ShiftUp(index: nat)
      requires Valid() && index <= size < capacity
      modifies storage
      ensures storage[..index] == old(storage[..index])
      ensures storage[index + 1..size + 1] == old(storage[index..size])
    {
      var i: int := size - 1;
      while i >= index
        invariant index - 1 <= i <= size - 1
        invariant forall j :: 0 <= j <= i ==> storage[j] == old(storage[j])
        invariant forall j :: i + 2 <= j <= size ==> storage[j] == old(storage[j - 1])
        decreases i
      {
        storage[i + 1] := storage[i];
        i := i - 1;
      }
      assert forall j :: 0 <= j < index ==> storage[..index][j] == old(storage[..index])[j];
      assert forall j :: 0 <= j < size - index ==>
        storage[index + 1..size + 1][j] == old(storage[index..size])[j];
    }

    /** `uninitialized_fill(v)`: write `v` into every live slot. */
    method UninitializedFill(v: T)
      requires Valid()
      modifies storage
      ensures Valid()
      ensures Contents() == seq(size, _ => v)
      ensures storage[size..] == old(storage[size..])
    {
      var i := 0;
      while i < size
        invariant 0 <= i <= size
        invariant forall j :: 0 <= j < i ==> storage[j] == v
        invariant storage[size..] == old(storage[size..])
      {
        storage[i] := v;
        i := i + 1;
      }
    }

    /** Move the first `count` live elements, in order, into a fresh block of
        `newCap` slots; they become the whole contents. */
    method Relocate(newCap: nat, count: nat)
      requires Valid() && count <= size && count <= newCap
      modifies this
      ensures Valid() && fresh(storage)
      ensures Contents() == old(Contents())[..count] && capacity == newCap
      ensures relocations == old(relocations) + count
    {
      var temp := new T[newCap];
      var i := 0;
      while i < count
        invariant 0 <= i <= count
        invariant temp[..i] == storage[..i]
        modifies temp
      {
        temp[i] := storage[i];
        i := i + 1;
      }
      storage := temp;
      capacity := newCap;
      size := count;
      relocations := relocations + count;
    }
  }

  /** A forward iterator: a slot position in `[begin, end] = [0, size]` of
      the vector `owner`. */
  datatype FwdIter<T(0)> = FwdIter(owner: Vector<T>, pos: int) {

    predicate InBounds()
      reads owner
    {
      0 <= pos <= owner.size
    }

    /** `begin` is the one in-range position with no in-range predecessor. */
    predicate IsBegin()
      reads owner
      ensures InBounds() ==> (IsBegin() <==> !FwdIter(owner, pos - 1).InBounds())
    {
      pos == 0
    }

    /** `end` is the one in-range position with no in-range successor. */
    predicate IsEnd()
      reads owner
      ensures InBounds() ==> (IsEnd() <==> !FwdIter(owner, pos + 1).InBounds())
    {
      pos == owner.size
    }

    /** `++`: fails with `IncrementEnd` at `end`; stays within `[begin, end]`. */
    function Next(): (r: Result<FwdIter<T>>)
      reads owner
      ensures r.Failure? <==> IsEnd()
      ensures r.Failure? ==> r.error == IncrementEnd
      ensures r.Success? ==> r.value.owner == owner && Less(r.value) && r.value.Distance(this) == 1
      ensures InBounds() && r.Success? ==> r.value.InBounds()
    {
      if IsEnd() then Failure(IncrementEnd) else Success(FwdIter(owner, pos + 1))
    }

    /** `--`: fails with `DecrementBegin` at `begin`; stays within `[begin, end]`. */
    function Prev(): (r: Result<FwdIter<T>>)
      reads owner
      ensures r.Failure? <==> IsBegin()
      ensures r.Failure? ==> r.error == DecrementBegin
      ensures r.Success? ==> r.value.owner == owner && r.value.Less(this) && Distance(r.value) == 1
      ensures InBounds() && r.Success? ==> r.value.InBounds()
    {
      if IsBegin() then Failure(DecrementBegin) else Success(FwdIter(owner, pos - 1))
    }

    /** `+= k`: fails with `TraversedVector` when the target lies past `end`. */
    function Plus(k: nat): (r: Result<FwdIter<T>>)
      reads owner
      ensures r.Failure? <==> pos + k > owner.size
      ensures r.Failure? ==> r.error == TraversedVector
      ensures r.Success? ==> r.value.owner == owner && r.value.Distance(this) == k
      ensures InBounds() && r.Success? ==> r.value.InBounds()
    {
      var p := pos + k;
      if p > owner.size then Failure(TraversedVector) else Success(FwdIter(owner, p))
    }

    /** `-= k`: fails with `TraversedVector` when the target lies before `begin`. */
    function Minus(k: nat): (r: Result<FwdIter<T>>)
      ensures r.Failure? <==> pos - k < 0
      ensures r.Failure? ==> r.error == TraversedVector
      ensures r.Success? ==> r.value.owner == owner && Distance(r.value) == k
      ensures InBounds() && r.Success? ==> r.value.InBounds()
    {
      var p := pos - k;
      if p < 0 then Failure(TraversedVector) else Success(FwdIter(owner, p))
    }

    /** `*`: the element addressed, or `DerefEnd` at `end`. */
    function Deref(): (r: Result<T>)
      reads owner, owner.storage
      requires owner.Valid() && InBounds()
      ensures r.Failure? <==> IsEnd()
      ensures r.Failure? ==> r.error == DerefEnd
      ensures r.Success? ==> r.value == owner.Contents()[pos]
    {
      if IsEnd() then Failure(DerefEnd) else Success(owner.storage[pos])
    }

    /** `[k]`: the element `k` slots ahead; fails with `TraversedVector`
        unless that slot holds a live element. */
    function At(k: nat): (r: Result<T>)
      reads owner, owner.storage
      requires owner.Valid() && InBounds()
      ensures r.Failure? <==> pos + k >= |owner.Contents()|
      ensures r.Failure? ==> r.error == TraversedVector
      ensures r.Success? ==> r.value == owner.Contents()[pos + k]
      ensures r.Success? ==> Plus(k).Success? && Plus(k).value.Deref() == r
    {
      var p := pos + k;
      if p >= owner.size then Failure(TraversedVector) else Success(owner.storage[p])
    }

    /** `it - other`: signed number of forward steps from `other` to `it`;
        its sign agrees with `<`. */
    function Distance(other: FwdIter<T>): (d: int)
      ensures d > 0 <==> other.Less(this)
      ensures d < 0 <==> Less(other)
      ensures d == 0 <==> pos == other.pos
    {
      pos - other.pos
    }

    /** `<`: `it` comes before `other` in forward order; nothing in range
        comes before `begin`, and `end` comes before nothing in range. */
    predicate Less(other: FwdIter<T>)
      reads owner, other.owner
      ensures InBounds() && other.IsBegin() ==> !Less(other)
      ensures Less(other) && other.owner == owner && other.InBounds() ==> !IsEnd()
    {
      pos < other.pos
    }

    /** `k` single steps of `++`. */
    function Walk(k: nat): (r: Result<FwdIter<T>>)
      reads owner
      ensures r.Success? ==> r.value.owner == owner
      decreases k
    {
      if k == 0 then Success(this)
      else
        match Walk(k - 1)
        case Failure(e) => Failure(e)
        case Success(j) => j.Next()
    }

    /** `++` undoes `--` and `--` undoes `++`. */
    lemma NextPrevInverse()
      requires InBounds()
      ensures Next().Success? ==> Next().value.Prev() == Success(this)
      ensures Prev().Success? ==> Prev().value.Next() == Success(this)
    {
    }

    /** `+= k` reaches exactly where `k` steps of `++` reach, and fails exactly
        when one of those steps would start from `end`. */
    lemma {:induction false} PlusIsRepeatedNext(k: nat)
      requires InBounds()
      ensures Plus(k).Success? <==> Walk(k).Success?
      ensures Plus(k).Success? ==> Plus(k) == Walk(k)
    {
      if k > 0 {
        PlusIsRepeatedNext(k - 1);
      }
    }

    /** `it - other` counts steps: after `k` successful `++` steps from `this`,
        the difference to `this` is `k`, and ordering agrees with it. */
    lemma {:induction false} DistanceCountsSteps(k: nat)
      requires InBounds() && Walk(k).Success?
      ensures Walk(k).value.Distance(this) == k
      ensures Distance(Walk(k).value) == -(k as int)
      ensures k > 0 ==> Less(Walk(k).value)
    {
      PlusIsRepeatedNext(k);
    }
  }

  /** A reverse iterator: a slot position in `[rend, rbegin] = [-1, size - 1]`
      of the vector `owner`; `++` moves toward lower slots. */
  datatype RevIter<T(0)> = RevIter(owner: Vector<T>, pos: int) {

    predicate InBounds()
      reads owner
    {
      -1 <= pos <= owner.size - 1
    }

    /** `rbegin` is the one in-range position with no in-range predecessor
        in reverse order (no in-range slot above it). */
    predicate IsRBegin()
      reads owner
      ensures InBounds() ==> (IsRBegin() <==> !RevIter(owner, pos + 1).InBounds())
    {
      pos == owner.size - 1
    }

    /** `rend` is the one in-range position with no in-range successor in
        reverse order (no in-range slot below it). */
    predicate IsREnd()
      reads owner
      ensures InBounds() ==> (IsREnd() <==> !RevIter(owner, pos - 1).InBounds())
    {
      pos == -1
    }

    /** `++`: one slot down; fails with `IncrementRend` at `rend`. */
    function Next(): (r: Result<RevIter<T>>)
      reads owner
      ensures r.Failure? <==> IsREnd()
      ensures r.Failure? ==> r.error == IncrementRend
      ensures r.Success? ==> r.value.owner == owner && Less(r.value) && r.value.Distance(this) == 1
      ensures InBounds() && r.Success? ==> r.value.InBounds()
    {
      if IsREnd() then Failure(IncrementRend) else Success(RevIter(owner, pos - 1))
    }

    /** `--`: one slot up; fails with `DecrementRbegin` at `rbegin`. */
    function Prev(): (r: Result<RevIter<T>>)
      reads owner
      ensures r.Failure? <==> IsRBegin()
      ensures r.Failure? ==> r.error == DecrementRbegin
      ensures r.Success? ==> r.value.owner == owner && r.value.Less(this) && Distance(r.value) == 1
      ensures InBounds() && r.Success? ==> r.value.InBounds()
    {
      if IsRBegin() then Failure(DecrementRbegin) else Success(RevIter(owner, pos + 1))
    }

    /** `+= k`: `k` slots down; fails with `TraversedVector` below `rend`. */
    function Plus(k: nat): (r: Result<RevIter<T>>)
      ensures r.Failure? <==> pos - k < -1
      ensures r.Failure? ==> r.error == TraversedVector
      ensures r.Success? ==> r.value.owner == owner && r.value.Distance(this) == k
      ensures InBounds() && r.Success? ==> r.value.InBounds()
    {
      var p := pos - k;
      if p < -1 then Failure(TraversedVector) else Success(RevIter(owner, p))
    }

    /** `-= k`: `k` slots up; fails with `TraversedVector` above `rbegin`. */
    function Minus(k: nat): (r: Result<RevIter<T>>)
      reads owner
      ensures r.Failure? <==> pos + k > owner.size - 1
      ensures r.Failure? ==> r.error == TraversedVector
      ensures r.Success? ==> r.value.owner == owner && Distance(r.value) == k
      ensures InBounds() && r.Success? ==> r.value.InBounds()
    {
      var p := pos + k;
      if p > owner.size - 1 then Failure(TraversedVector) else Success(RevIter(owner, p))
    }

    /** `*`: the element addressed, or `DerefRend` at `rend`. */
    function Deref(): (r: Result<T>)
      reads owner, owner.storage
      requires owner.Valid() && InBounds()
      ensures r.Failure? <==> IsREnd()
      ensures r.Failure? ==> r.error == DerefRend
      ensures r.Success? ==> r.value == owner.Contents()[pos]
    {
      if IsREnd() then Failure(DerefRend) else Success(owner.storage[pos])
    }

    /** `[k]`: the element `k` slots down; fails with `TraversedVector` unless
        that slot holds a live element. */
    function At(k: nat): (r: Result<T>)
      reads owner, owner.storage
      requires owner.Valid() && InBounds()
      ensures r.Failure? <==> pos - k <= -1
      ensures r.Failure? ==> r.error == TraversedVector
      ensures r.Success? ==> r.value == owner.Contents()[pos - k]
      ensures r.Success? ==> Plus(k).Success? && Plus(k).value.Deref() == r
    {
      var p := pos - k;
      if p <= -1 then Failure(TraversedVector) else Success(owner.storage[p])
    }

    /** `it - other`: signed number of reverse steps (`++`) from `other` to
        `it`; its sign agrees with the reversed `<`. */
    function Distance(other: RevIter<T>): (d: int)
      ensures d > 0 <==> other.Less(this)
      ensures d < 0 <==> Less(other)
      ensures d == 0 <==> pos == other.pos
    {
      other.pos - pos
    }

    /** `<`: `it` comes before `other` in reverse order, i.e. sits at a higher
        slot; nothing in range comes before `rbegin`, and `rend` comes before
        nothing in range. */
    predicate Less(other: RevIter<T>)
      reads owner, other.owner
      ensures InBounds() && other.owner == owner && other.IsRBegin() ==> !Less(other)
      ensures Less(other) && other.InBounds() ==> !IsREnd()
    {
      pos > other.pos
    }

    /** `k` single steps of `++`. */
    function Walk(k: nat): (r: Result<RevIter<T>>)
      reads owner
      ensures r.Success? ==> r.value.owner == owner
      decreases k
    {
      if k == 0 then Success(this)
      else
        match Walk(k - 1)
        case Failure(e) => Failure(e)
        case Success(j) => j.Next()
    }

    /** `++` undoes `--` and `--` undoes `++`. */
    lemma NextPrevInverse()
      requires InBounds()
      ensures Next().Success? ==> Next().value.Prev() == Success(this)
      ensures Prev().Success? ==> Prev().value.Next() == Success(this)
    {
    }

    /** `+= k` reaches exactly where `k` steps of `++` reach. */
    lemma {:induction false} PlusIsRepeatedNext(k: nat)
      requires InBounds()
      ensures Plus(k).Success? <==> Walk(k).Success?
      ensures Plus(k).Success? ==> Plus(k) == Walk(k)
    {
      if k > 0 {
        PlusIsRepeatedNext(k - 1);
      }
    }

    /** `it - other` counts steps: after `k` successful `++` steps from `this`,
        the difference to `this` is `k`, and ordering agrees with it. */
    lemma {:induction false} DistanceCountsSteps(k: nat)
      requires InBounds() && Walk(k).Success?
      ensures Walk(k).value.Distance(this) == k
      ensures Distance(Walk(k).value) == -(k as int)
      ensures k > 0 ==> Less(Walk(k).value)
    {
      PlusIsRepeatedNext(k);
    }
  }

  /** Forward traversal from `begin` reads the contents in index order. */
  lemma ForwardTraversal<T(0)>(v: Vector<T>, k: nat)
    requires v.Valid() && k < |v.Contents()|
    ensures v.Begin().Plus(k).Success?
    ensures v.Begin().Plus(k).value.Deref() == Success(v.Contents()[k])
  {
  }

  /** Reverse traversal from `rbegin` reads the contents back to front. */
  lemma ReverseTraversal<T(0)>(v: Vector<T>, k: nat)
    requires v.Valid() && k < |v.Contents()|
    ensures v.RBegin().Plus(k).Success?
    ensures v.RBegin().Plus(k).value.Deref() == Success(v.Contents()[|v.Contents()| - 1 - k])
  {
  }
}
