/**
 * Operations of the container whose code departs from the contract the rest
 * of the model follows, modelled as the code computes them, each beside a
 * lemma that exhibits the difference.  They work on plain values: a `Block`
 * is what a vector's `storage`, `vec_size` and `vec_capacity` hold.
 */
module AsWritten {
  import opened Errors
  import opened Storage
  import opened Vectors

  /** A block of `|slots|` slots whose first `size` hold live elements. */
  datatype Block<T> = Block(slots: seq<T>, size: nat) {

    predicate Valid()
    {
      size <= |slots|
    }

    function Live(): seq<T>
      requires Valid()
    {
      slots[..size]
    }
  }

  /** The state `construct(0)` leaves: no slots, no elements. */
  function EmptyBlock<T>(): Block<T>
  {
    Block([], 0)
  }

  // ------------------------------------------------------------------
  // destroy(): the destructor loop stops one slot early
  // ------------------------------------------------------------------

  /** Slots whose destructor `destroy` runs as written: nothing when empty,
      otherwise the loop bound `vec_size - 1` covers `[0, size - 1)`. */
  function DestroyedSlotsAsWritten(size: nat): (r: set<nat>)
    ensures r <= DestroyedSlots(size)
  {
    if size == 0 then {} else DestroyedSlots(size - 1)
  }

  /** On a non-empty vector exactly one live element, the last, is never destroyed. */
  lemma DestroySkipsLastElement(size: nat)
    requires size > 0
    ensures DestroyedSlots(size) - DestroyedSlotsAsWritten(size) == {size - 1}
    ensures |DestroyedSlotsAsWritten(size)| == size - 1
  {
  }

  // ------------------------------------------------------------------
  // emplace_back(): returns storage[vec_size] after the increment
  // ------------------------------------------------------------------

  /** The slot whose reference `emplace_back` returns, given the size before
      the call. */
  function EmplaceBackSlotAsWritten(size: nat): (slot: nat)
    ensures slot > size
  {
    size + 1  // vec_size has already been incremented
  }

  /** The slot returned is one past the new element (which sits at `size`),
      so it holds no live element; when the append leaves the block exactly
      full (the first append to an empty vector, or an append into the last
      free slot) it lies outside the block altogether. */
  lemma EmplaceBackReturnsPastNewElement(size: nat, capacity: nat)
    requires size <= capacity
    ensures EmplaceBackSlotAsWritten(size) != size
    ensures EmplaceBackSlotAsWritten(size) >= size + 1
    ensures size + 1 == CapacityForPush(size, capacity) ==>
      EmplaceBackSlotAsWritten(size) >= CapacityForPush(size, capacity)
    ensures size == capacity == 0 ==> size + 1 == CapacityForPush(size, capacity)
  {
  }

  // ------------------------------------------------------------------
  // Copy construction / copy assignment: construct() sets size = capacity
  // ------------------------------------------------------------------

  /** The copy as written: `construct(rhs.vec_capacity)` makes every slot live
      and the loop copies all of `rhs`'s slots, live or not. */
  function CopyAsWritten<T>(rhs: Block<T>): (r: Block<T>)
    requires rhs.Valid()
    ensures r.Valid() && r.Live() == rhs.slots
    ensures |r.slots| == |rhs.slots|
  {
    Block(rhs.slots, |rhs.slots|)
  }

  /** Whenever the source has slack, the copy has more elements than the
      source: its live part runs on into the source's unused slots. */
  lemma CopyAsWrittenExposesSlack<T>(rhs: Block<T>)
    requires rhs.Valid() && rhs.size < |rhs.slots|
    ensures |CopyAsWritten(rhs).Live()| > |rhs.Live()|
    ensures CopyAsWritten(rhs).Live()[..rhs.size] == rhs.Live()
  {
  }

  /** Slack is the ordinary state: three appends to an empty vector leave
      size 3 in a block of 4. */
  lemma ThreePushesLeaveSlack()
    ensures PushesFromEmpty(3) == PushCost(3, 4, 3)
  {
    assert PushesFromEmpty(1) == PushCost(1, 1, 0);
    assert PushesFromEmpty(2) == PushCost(2, 2, 1);
  }

  // ------------------------------------------------------------------
  // fill(): rebuilds the block through construct()
  // ------------------------------------------------------------------

  /** `fill(v)` as written: `construct(vec_capacity)` makes every slot live
      and the loop writes `v` into each. */
  function FillAsWritten<T>(b: Block<T>, v: T): (r: Block<T>)
    requires b.Valid()
    ensures r.Valid() && |r.slots| == |b.slots|
    ensures forall i :: 0 <= i < r.size ==> r.Live()[i] == v
  {
    Block(seq(|b.slots|, _ => v), |b.slots|)
  }

  /** With slack, `fill` changes the size: it grows to the capacity. */
  lemma FillAsWrittenGrowsSize<T>(b: Block<T>, v: T)
    requires b.Valid() && b.size < |b.slots|
    ensures |FillAsWritten(b, v).Live()| == |b.slots| > |b.Live()|
  {
  }

  // ------------------------------------------------------------------
  // resize(): the growing branch targets new_size + vec_size
  // ------------------------------------------------------------------

  /** The growing branch of `resize(n, v)` as written: it reallocates when
      `size + n` exceeds the capacity, to `n + size` slots, writes `v` into
      `[size, n + size)`, and then sets the size to `n`. */
  function ResizeGrowAsWritten<T>(b: Block<T>, n: nat, v: T): (r: Block<T>)
    requires b.Valid() && n > b.size
    ensures r.Valid() && r.size == n
  {
    var overall := n + b.size;
    if ShouldReAlloc(b.size, |b.slots|, n) then Block(b.Live() + seq(n, _ => v), n)
    else Block(b.Live() + seq(n, _ => v) + b.slots[overall..], n)
  }

  /** The live elements come out right, but the capacity differs from the
      intended one (`n` when `n` exceeds it, else unchanged) exactly when the
      vector was non-empty and `size + n` exceeded the capacity, and copies
      of `v` are constructed in `[n, n + size)`, outside the live range,
      where nothing destroys them. */
  lemma ResizeAsWrittenOverAllocates<T>(b: Block<T>, n: nat, v: T)
    requires b.Valid() && n > b.size
    ensures ResizeGrowAsWritten(b, n, v).Live() == b.Live() + seq(n - b.size, _ => v)
    ensures var r := ResizeGrowAsWritten(b, n, v);
      var intended := if n > |b.slots| then n else |b.slots|;
      |r.slots| != intended <==> b.size > 0 && ShouldReAlloc(b.size, |b.slots|, n)
    ensures var r := ResizeGrowAsWritten(b, n, v);
      forall j :: n <= j < n + b.size ==> r.slots[j] == v
  {
    var r := ResizeGrowAsWritten(b, n, v);
    assert r.slots[..n + b.size] == b.Live() + seq(n, _ => v);
    assert r.Live() == (b.Live() + seq(n, _ => v))[..n];
  }

  // ------------------------------------------------------------------
  // Move assignment: acts only when this == &rhs; swap() relies on it
  // ------------------------------------------------------------------

  /** `lhs = std::move(rhs)` as written; `aliased` says whether both sides are
      the same vector.  Only a self-move does anything, and it empties the
      vector. */
  function MoveAssignAsWritten<T>(lhs: Block<T>, rhs: Block<T>, aliased: bool): (r: (Block<T>, Block<T>))
    requires aliased ==> lhs == rhs
    ensures aliased ==> r.0 == r.1 == EmptyBlock()
    ensures !aliased ==> r == (lhs, rhs)
  {
    if aliased then (EmptyBlock(), EmptyBlock()) else (lhs, rhs)
  }

  /** Moving between two distinct vectors moves nothing, and a self-move
      loses every element: the reverse of the intended behaviour. */
  lemma MoveAssignAsWrittenIsInverted<T>(lhs: Block<T>, rhs: Block<T>)
    requires lhs.Valid() && rhs.Valid() && lhs.Live() != rhs.Live()
    ensures MoveAssignAsWritten(lhs, rhs, false).0.Live() != rhs.Live()
    ensures rhs.size > 0 ==> MoveAssignAsWritten(rhs, rhs, true).0.Live() != rhs.Live()
  {
  }

  /** `a.swap(b)` as written, for distinct vectors: move-construct a temporary
      from `a` (which empties `a`), then two move assignments between distinct
      vectors, which do nothing. */
  function SwapAsWritten<T>(a: Block<T>, b: Block<T>): (r: (Block<T>, Block<T>))
    ensures r.1 == b
  {
    var temp := a;
    var a1 := EmptyBlock<T>();
    var (a2, b1) := MoveAssignAsWritten(a1, b, false);
    var (b2, _) := MoveAssignAsWritten(b1, temp, false);
    (a2, b2)
  }

  /** The swap empties `a` and leaves `b` as it was: `a`'s elements are lost. */
  lemma SwapAsWrittenLosesElements<T>(a: Block<T>, b: Block<T>)
    requires a.Valid() && a.size > 0
    ensures SwapAsWritten(a, b).0.Live() == []
    ensures SwapAsWritten(a, b).0.Live() != a.Live()
    ensures SwapAsWritten(a, b).1 == b
  {
  }

  // ------------------------------------------------------------------
  // erase(): returns the old it2
  // ------------------------------------------------------------------

  /** The position of the iterator `erase(it1, it2)` returns, as written:
      `it2`'s, taken before the gap was closed. */
  function EraseResultAsWritten(first: nat, last: nat): (p: nat)
    requires first < last
    ensures p > first
  {
    last
  }

  /** After erasing `[first, last)` from `s`, the follower `s[last]` sits at
      `first`; the returned position instead lies past the new end when
      `2 * last - first > |s|`, and otherwise addresses `s[2 * last - first]`,
      skipping `last - first` elements. */
  lemma EraseResultAsWrittenSkips<T>(s: seq<T>, first: nat, last: nat)
    requires first < last <= |s|
    ensures var after := s[..first] + s[last..];
      var p := EraseResultAsWritten(first, last);
      (last < |s| ==> after[first] == s[last])
      && (p > |after| <==> 2 * last - first > |s|)
      && (p < |after| ==> after[p] == s[2 * last - first])
  {
  }

  // ------------------------------------------------------------------
  // Iterator operator[]: the bound check lets the sentinel slot through
  // ------------------------------------------------------------------

  /** The slot forward `it[k]` reads as written: refused only past `end`. */
  function FwdAtSlotAsWritten<T(0)>(it: FwdIter<T>, k: nat): (r: Result<int>)
    reads it.owner
    ensures r.Failure? <==> it.pos + k > it.owner.size
    ensures r.Success? ==> r.value == it.pos + k
  {
    var p := it.pos + k;
    if p > it.owner.size then Failure(TraversedVector) else Success(p)
  }

  /** An offset landing exactly on `end` is accepted and reads the slot one
      past the last element; the corrected `FwdIter.At` refuses it. */
  lemma FwdAtAsWrittenReadsEnd<T(0)>(it: FwdIter<T>, k: nat)
    requires it.owner.Valid() && it.InBounds() && it.pos + k == it.owner.size
    ensures FwdAtSlotAsWritten(it, k) == Success(|it.owner.Contents()|)
    ensures it.At(k) == Failure(TraversedVector)
  {
  }

  /** The slot reverse `it[k]` reads as written: refused only below `rend`. */
  function RevAtSlotAsWritten<T(0)>(it: RevIter<T>, k: nat): (r: Result<int>)
    ensures r.Failure? <==> it.pos - k < -1
    ensures r.Success? ==> r.value == it.pos - k
  {
    var p := it.pos - k;
    if p < -1 then Failure(TraversedVector) else Success(p)
  }

  /** An offset landing exactly on `rend` is accepted and reads the slot
      before the first; the corrected `RevIter.At` refuses it. */
  lemma RevAtAsWrittenReadsRend<T(0)>(it: RevIter<T>, k: nat)
    requires it.owner.Valid() && it.InBounds() && it.pos - k == -1
    ensures RevAtSlotAsWritten(it, k) == Success(-1)
    ensures it.At(k) == Failure(TraversedVector)
  {
  }

  // ------------------------------------------------------------------
  // Reverse iterator difference: slot difference, not step count
  // ------------------------------------------------------------------

  /** `a - b` for reverse iterators as written: the difference of the slots. */
  function RevDistanceAsWritten<T(0)>(a: RevIter<T>, b: RevIter<T>): (d: int)
    ensures d == -a.Distance(b)
  {
    a.pos - b.pos
  }

  /** `(it + k) - it` comes out as `-k`, although `it + k` lies `k` steps
      ahead of `it` and compares greater than it. */
  lemma RevDistanceAsWrittenHasWrongSign<T(0)>(it: RevIter<T>, k: nat)
    requires it.Plus(k).Success?
    ensures RevDistanceAsWritten(it.Plus(k).value, it) == -(k as int)
    ensures it.Plus(k).value.Distance(it) == k
    ensures k > 0 ==> it.Less(it.Plus(k).value)
  {
  }

  // ------------------------------------------------------------------
  // insert()/emplace(): the value is read after the shift
  // ------------------------------------------------------------------

  /** The live slots after the backward loop of `insert`, with room in the
      block: slot `index` still holds its old element and `[index, size)`
      has moved one slot up. */
  function ShiftUpAsWritten<T>(s: seq<T>, index: nat): (r: seq<T>)
    requires index < |s|
    ensures |r| == |s| + 1
    ensures r[..index + 1] == s[..index + 1] && r[index + 1..] == s[index..]
  {
    s[..index + 1] + s[index..]
  }

  /** `insert(it, val)` as written, where `val` is a reference to the live
      slot `j` of the same vector and no reallocation happens: the slots are
      shifted first and `val` is read afterwards, from the shifted block. */
  function InsertOwnElementAsWritten<T>(s: seq<T>, index: nat, j: nat): (r: seq<T>)
    requires index <= |s| && j < |s|
    ensures |r| == |s| + 1
    ensures r[..index] == s[..index] && r[index + 1..] == s[index..]
    ensures j <= index ==> r[index] == s[j]
    ensures index < j ==> r[index] == s[j - 1]
  {
    if index == |s| then s + [s[j]]
    else
      var shifted := ShiftUpAsWritten(s, index);
      shifted[index := shifted[j]]
  }

  /** When the referenced element lies after the insertion point, the value
      inserted is its predecessor: `insert(begin(), v[1])` on `1, 2, 3` gives
      `1, 1, 2, 3` where inserting the value `v[1]` gives `2, 1, 2, 3`. */
  lemma InsertOwnElementAsWrittenReadsShifted<T>(s: seq<T>, index: nat, j: nat)
    requires index < j < |s|
    ensures InsertOwnElementAsWritten(s, index, j) == s[..index] + [s[j - 1]] + s[index..]
    ensures s[j - 1] != s[j] ==>
      InsertOwnElementAsWritten(s, index, j) != s[..index] + [s[j]] + s[index..]
  {
    var r := InsertOwnElementAsWritten(s, index, j);
    assert r == r[..index] + [r[index]] + r[index + 1..];
    if s[j - 1] != s[j] {
      assert (s[..index] + [s[j]] + s[index..])[index] == s[j];
    }
  }

  /** The example above, on concrete values. */
  lemma InsertSecondAtBeginAsWritten()
    ensures InsertOwnElementAsWritten([1, 2, 3], 0, 1) == [1, 1, 2, 3]
  {
    InsertOwnElementAsWrittenReadsShifted([1, 2, 3], 0, 1);
  }
}
