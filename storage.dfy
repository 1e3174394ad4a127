/**
 * The storage and growth engine of the container, on numbers only: when an
 * append reallocates, to which capacity, how many elements a reallocation
 * relocates, and which live slots the destruction loop reaches.
 */
module Storage {

  /** `should_re_alloc`: the block cannot hold `offset` more elements.  On a
      block within its capacity that means fewer than `offset` free slots, so
      room for no element at all is never a reason to reallocate. */
  function ShouldReAlloc(size: nat, capacity: nat, offset: nat): (b: bool)
    ensures size <= capacity ==> (b <==> capacity - size < offset)
    ensures size <= capacity && offset == 0 ==> !b
    ensures b && offset <= 1 ==> size >= capacity
  {
    size + offset > capacity
  }

  /** `double_capacity_0_prevented`: the next capacity on overflow. */
  function DoubleCapacity0Prevented(capacity: nat): (c: nat)
    ensures c > capacity
    ensures capacity > 0 ==> c == 2 * capacity
    ensures capacity == 0 ==> c == 1
  {
    if capacity == 0 then 1 else capacity * 2
  }

  /** Capacity after appending one element to a block with `size` live slots. */
  function CapacityForPush(size: nat, capacity: nat): (c: nat)
    requires size <= capacity
    ensures size + 1 <= c
    ensures capacity <= c <= 2 * capacity + 1
    ensures c != capacity <==> size == capacity
  {
    if ShouldReAlloc(size, capacity, 1) then DoubleCapacity0Prevented(capacity) else capacity
  }

  /** Elements an append relocates: all live ones when it reallocates, none otherwise. */
  function MovesForPush(size: nat, capacity: nat): (m: nat)
    requires size <= capacity
    ensures m == 0 <==> size < capacity || size == 0
    ensures m <= size
  {
    if ShouldReAlloc(size, capacity, 1) then size else 0
  }

  /** Size, capacity and relocations performed so far by a run of appends. */
  datatype PushCost = PushCost(size: nat, capacity: nat, moves: nat)

  /** The state reached by `n` appends to an empty vector. */
  function PushesFromEmpty(n: nat): (g: PushCost)
    ensures g.size == n && g.size <= g.capacity
  {
    if n == 0 then PushCost(0, 0, 0)
    else
      var p := PushesFromEmpty(n - 1);
      PushCost(n, CapacityForPush(p.size, p.capacity), p.moves + MovesForPush(p.size, p.capacity))
  }

  /** After n >= 1 appends the capacity is below 2n and every relocation so far
      was paid for by an earlier doubling: moves == capacity - 1. */
  lemma {:induction false} PushesFromEmptyShape(n: nat)
    ensures n == 0 ==> PushesFromEmpty(n) == PushCost(0, 0, 0)
    ensures n > 0 ==> PushesFromEmpty(n).moves + 1 == PushesFromEmpty(n).capacity
    ensures n > 0 ==> PushesFromEmpty(n).capacity < 2 * n
  {
    if n > 0 {
      PushesFromEmptyShape(n - 1);
    }
  }

  /** Doubling makes appends amortized constant time: n appends from empty
      relocate fewer than 2n elements in total, and waste less than half the block. */
  lemma AmortizedPushCost(n: nat)
    ensures PushesFromEmpty(n).moves <= 2 * n
    ensures n > 0 ==> PushesFromEmpty(n).moves < 2 * n - 1
    ensures n > 0 ==> PushesFromEmpty(n).capacity < 2 * n
  {
    PushesFromEmptyShape(n);
  }

  /** Slots whose destructor `destroy` is meant to run: every live slot `[0, size)`. */
  function DestroyedSlots(size: nat): (r: set<nat>)
    ensures forall i: nat :: i in r <==> i < size
    ensures |r| == size
  {
    if size == 0 then {} else DestroyedSlots(size - 1) + {size - 1}
  }
}
