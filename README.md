# Vector<T>: a verified model of a contiguous dynamic array

This project models `Vector<T>`, a generic dynamic array with value semantics.
It keeps its elements in one owned block of slots: the first `size` slots hold
live elements and the block holds `capacity` slots. Appends that would overflow
the block move the elements into a new block of twice the capacity, or of one
slot when the capacity is 0. The container hands out forward and reverse
iterators. These check their bounds and their owner, and stop the program
(fail fast) when misused.

Modules:

- `Errors` (errors.dfy): one `Error` constructor per fatal message of the
  container (`IncrementEnd`, `DiffVectors`, `SubscriptOutOfRange`, ...). It also
  holds `Result`/`Outcome` values. Where the source calls `err::exit_if(cond, msg)`
  and terminates, the model returns the error named by `msg` and changes
  nothing.
- `Storage` (storage.dfy): the growth engine on numbers. It covers
  `should_re_alloc`, `double_capacity_0_prevented`, the capacity and number of
  relocated elements after one append, the state after `n` appends from empty,
  and the amortized cost of doubling. It also gives the slots `destroy` is
  meant to destroy.
- `Vectors` (vector.dfy): the class `Vector<T>`. Its fields are `storage`
  (an `array<T>` whose length is the capacity), `size` and `capacity`, plus a
  ghost relocation counter. `Valid()` says `size <= capacity == storage.Length`,
  and `Contents()` is `storage[..size]`. Every mutator is a method whose
  `ensures` gives the new `Contents()`, capacity, block (fresh or the same one)
  and counter in terms of the old ones. The copying and shifting loops are kept as loops with invariants. The
  iterators are the values `FwdIter(owner, pos)` and `RevIter(owner, pos)`:
  `owner` is the identity of the producing vector and `pos` a slot position.
  Forward positions range over `[0, size]` and reverse ones over `[-1, size - 1]`,
  where `-1` is `rend`. Each iterator operation returns either the moved
  iterator or the error the source aborts with. Each one also states that it
  keeps the position in range.
- `AsWritten` (as_written.dfy): the operations whose code departs from the
  intended contract, modelled as the code computes them on plain `Block` values
  (slots plus size). Each one comes with a lemma showing the difference (see
  Findings). The class in `Vectors` implements the corrected behaviour.
- `Scenarios` (scenarios.dfy): client methods. From the contracts alone they
  prove the usage examples: three appends, erasing a middle range, inserting
  in the middle, popping an empty vector, copy independence (also after an
  insert into the copy), reserve, a foreign iterator, inserting one of the
  vector's own elements, and chains of mutations
  on one vector. `AppendMany` runs `n` appends in a loop and proves the
  amortized bound on the vector's own relocation counter.

`erase(it1, it2)` with `it1` after `it2` is not checked explicitly by the
source. Its destructor loop then walks from `it1` up to `end()` and aborts when
it dereferences `end()`. The model therefore returns `DerefEnd` in that case.

## Model

| member | source | states |
|---|---|---|
| `Storage.DoubleCapacity0Prevented` | src/vector/Vector.h:219 | the next capacity is strictly larger: twice the old one, or 1 from 0 |
| `Storage.ShouldReAlloc` | src/vector/Vector.h:218 | on a block within its capacity, reallocation is due exactly when fewer than `offset` slots are free; never for zero elements |
| `Storage.CapacityForPush` | src/vector/Vector.h:218-219 | after an append the block has room for `size + 1` elements; it never shrinks and at most doubles (plus one); it changes exactly when the block was full |
| `Storage.MovesForPush` | src/vector/Vector.h:275-290 | an append relocates elements only when it reallocates a non-empty full block, and then at most `size` of them |
| `Storage.PushesFromEmpty` | src/vector/Vector.h:421-427 | after `n` appends from empty, size is `n` and `size <= capacity` |
| `Storage.PushesFromEmptyShape` | src/vector/Vector.h:421-427 | after `n >= 1` appends the capacity is below `2n` and the relocations so far equal capacity minus one |
| `Storage.AmortizedPushCost` | src/vector/Vector.h:421-427 | `n` appends from empty relocate fewer than `2n - 1` elements in all, so appends are amortized O(1) |
| `Storage.DestroyedSlots` | src/vector/Vector.h:582-590 | destruction is meant to reach exactly the live slots `[0, size)`, `size` of them |
| `Vectors.Vector.constructor` | src/vector/Vector.h:292-296 | a default-constructed vector is empty with capacity 0 |
| `Vectors.Vector.Sized` | src/vector/Vector.h:298-303 | `n` live elements, all equal (the default value), capacity `n` |
| `Vectors.Vector.Filled` | src/vector/Vector.h:305-310 | contents are `n` copies of `v`, capacity `n` |
| `Vectors.Vector.FromSeq` | src/vector/Vector.h:312-332 | list and range construction: contents equal the input in order, capacity its length |
| `Vectors.Vector.CopyOf` | src/vector/Vector.h:346-354 | copy construction: a fresh block (independent storage) with the source's contents and capacity |
| `Vectors.Vector.CopyAssign` | src/vector/Vector.h:356-369 | copy assignment: contents and capacity become the source's in a fresh block; self-assignment keeps contents, capacity and block |
| `Vectors.Vector.MoveFrom` | src/vector/Vector.h:371-381 | move construction takes the source's block and contents; the source becomes empty with capacity 0 in a fresh block, its relocation count unchanged |
| `Vectors.Vector.MoveAssign` | src/vector/Vector.h:383-399 | move assignment takes `rhs`'s block and contents and empties `rhs`, leaving its relocation count unchanged; self-move changes nothing |
| `Vectors.Vector.Assign` | src/vector/Vector.h:334-344 | `assign`: contents become the range, capacity its length |
| `Vectors.Vector.Fill` | src/vector/Vector.h:409-418 | every live element becomes `v`; size, capacity and block are kept |
| `Vectors.Vector.Size` | src/vector/Vector.h:236 | the size is the number of live elements and never exceeds the capacity |
| `Vectors.Vector.Capacity` | src/vector/Vector.h:237 | the capacity is the block length and at least the size |
| `Vectors.Vector.Empty` | src/vector/Vector.h:238 | `empty()` holds exactly when there are no elements |
| `Vectors.Vector.Front` | src/vector/Vector.h:240 | first element; `FrontEmptyVector` exactly when empty |
| `Vectors.Vector.Back` | src/vector/Vector.h:241 | last element; `BackEmptyVector` exactly when empty |
| `Vectors.Vector.Get` | src/vector/Vector.h:242 | element at `index`; `SubscriptOutOfRange` exactly when `index >= size` |
| `Vectors.Vector.At` | src/vector/Vector.h:243 | same check and result as `operator[]` |
| `Vectors.Vector.Set` | src/vector/Vector.h:242 | a write through `operator[]` changes only slot `index`, or fails with `SubscriptOutOfRange` and changes nothing |
| `Vectors.Vector.ReAlloc` | src/vector/Vector.h:274-290 | reallocation keeps every element in index order in a fresh block of exactly `newCap` slots and relocates `size` elements |
| `Vectors.Vector.PushBack` | src/vector/Vector.h:420-427 | contents become old contents plus `v`; the capacity follows the growth rule; a fresh block exactly when the old one was full |
| `Vectors.Vector.EmplaceBack` | src/vector/Vector.h:429-439 | as `push_back`, including the growth rule, the relocation count and a fresh block exactly when the old one was full; the returned slot is the new element's, `old size` |
| `Vectors.Vector.Insert` | src/vector/Vector.h:441-460 | foreign iterator: `DiffVectors`, and contents, capacity and block unchanged; otherwise contents become `s[..i] + [v] + s[i..]` and the result points at `i`; growth, relocation count and block (fresh exactly when the old one was full) are as for an append |
| `Vectors.Vector.InsertAt` | src/vector/Vector.h:446-459 | with the index taken before reallocation, `v` lands at that index and the tail moves up by one; growth, relocations and block are as for an append |
| `Vectors.Vector.ShiftUp` | src/vector/Vector.h:452-454 | the back-to-front loop moves `[index, size)` one slot up and leaves `[0, index)` alone |
| `Vectors.Vector.PlaceAt` | src/vector/Vector.h:452-459 | with a free slot, opening the gap and storing `v` inserts `v` at `index` in the same block, without relocating |
| `Vectors.Vector.Emplace` | src/vector/Vector.h:462-482 | the same contract as `insert`: owner check, contents, result, growth, relocation count and block |
| `Vectors.Vector.PopBack` | src/vector/Vector.h:484-489 | removes only the last element and keeps block and capacity; `PopEmptyVector` exactly when empty |
| `Vectors.Vector.Reserve` | src/vector/Vector.h:491-496 | capacity becomes `max(n, capacity)`; a fresh block, with all `size` elements relocated, only when `n` exceeds it; the elements never change |
| `Vectors.Vector.Resize` | src/vector/Vector.h:498-529 | truncates to `n`, or appends copies of `v` up to `n`; the capacity becomes `n` only when `n` exceeds it; a fresh block when truncating (the `n` kept elements are relocated) or growing past the capacity (all relocated), the same block otherwise |
| `Vectors.Vector.ShrinkToFit` | src/vector/Vector.h:531-536 | capacity becomes exactly the size and the elements are unchanged; a fresh block, relocating every element, only when there was slack |
| `Vectors.Vector.Clear` | src/vector/Vector.h:538-543 | no elements remain and the capacity is 0 |
| `Vectors.Vector.Swap` | src/vector/Vector.h:545-551 | blocks, contents and capacities of the two vectors are exchanged; no element is relocated |
| `Vectors.Vector.Erase` | src/vector/Vector.h:553-580 | mixed or foreign owners give `DiffVectors`; `it1 == it2` is a no-op returning `it2`; `it1 > it2` gives `DerefEnd`; otherwise contents become `s[..a] + s[b..]` in the same block, and the result points at `a` |
| `Vectors.Vector.Begin` | src/vector/Vector.h:255 | `begin()` is at position 0, in range, and equals `end()` when empty |
| `Vectors.Vector.End` | src/vector/Vector.h:256 | `end()` is at position `size`, in range |
| `Vectors.Vector.RBegin` | src/vector/Vector.h:259 | `rbegin()` addresses the last slot, `size - 1`, and equals `rend()` when empty |
| `Vectors.Vector.REnd` | src/vector/Vector.h:260 | `rend()` is the sentinel position `-1` |
| `Vectors.Vector.Construct` | src/vector/Vector.h:266-272 | `construct(cap)` gives a fresh block of `cap` slots and counts all of them as live |
| `Vectors.Vector.UninitializedFill` | src/vector/Vector.h:401-407 | every live slot holds `v`, the slack is untouched |
| `Vectors.Vector.Relocate` | src/vector/Vector.h:275-290 | the first `count` elements move in order into a fresh block of `newCap` slots and become the contents |
| `Vectors.FwdIter.Next` | src/vector/Vector.h:51-56 | `++` fails with `IncrementEnd` exactly at `end`; otherwise it moves one step forward and stays in `[0, size]` |
| `Vectors.FwdIter.Prev` | src/vector/Vector.h:63-68 | `--` fails with `DecrementBegin` exactly at `begin`; otherwise it moves one step back and stays in `[0, size]` |
| `Vectors.FwdIter.IsBegin` | src/vector/Vector.h:45 | `begin` is exactly the in-range position with no in-range predecessor |
| `Vectors.FwdIter.IsEnd` | src/vector/Vector.h:46 | `end` is exactly the in-range position with no in-range successor |
| `Vectors.FwdIter.Plus` | src/vector/Vector.h:84-89 | `+= k` fails with `TraversedVector` exactly when the target is past `end`; otherwise it lands `k` steps ahead, in range |
| `Vectors.FwdIter.Minus` | src/vector/Vector.h:95-100 | `-= k` fails with `TraversedVector` exactly when the target is before `begin`; otherwise it lands `k` steps back, in range |
| `Vectors.FwdIter.Deref` | src/vector/Vector.h:102-106 | `*` yields the element at the position; `DerefEnd` exactly at `end` |
| `Vectors.FwdIter.At` | src/vector/Vector.h:107-112 | `it[k]` yields the element `k` ahead, the same one `*(it + k)` yields, and fails unless that slot is live |
| `Vectors.FwdIter.Walk` | src/vector/Vector.h:51-56 | `k` repeated pre-increments keep the owner |
| `Vectors.FwdIter.NextPrevInverse` | src/vector/Vector.h:51-74 | `++` and `--` undo each other on in-range iterators |
| `Vectors.FwdIter.PlusIsRepeatedNext` | src/vector/Vector.h:75-89 | `+= k` succeeds exactly when `k` single `++` steps do, and reaches the same iterator |
| `Vectors.FwdIter.DistanceCountsSteps` | src/vector/Vector.h:101 | `it - other` counts `++` steps: after `k` steps the difference is `k`, its negation the other way, and `<` agrees |
| `Vectors.FwdIter.Distance` | src/vector/Vector.h:101 | `it - other` is positive exactly when `other < it`, negative exactly when `it < other`, and zero exactly at the same position |
| `Vectors.FwdIter.Less` | src/vector/Vector.h:116 | `<` orders positions: no in-range iterator precedes `begin`, and `end` precedes no in-range iterator of its vector |
| `Vectors.RevIter.Next` | src/vector/Vector.h:135-140 | reverse `++` moves one slot down; `IncrementRend` exactly at `rend`; stays in `[-1, size - 1]` and compares greater |
| `Vectors.RevIter.Prev` | src/vector/Vector.h:147-152 | reverse `--` moves one slot up; `DecrementRbegin` exactly at `rbegin`; stays in `[-1, size - 1]` |
| `Vectors.RevIter.IsRBegin` | src/vector/Vector.h:129 | `rbegin` is exactly the in-range position with no in-range slot above it |
| `Vectors.RevIter.IsREnd` | src/vector/Vector.h:130 | `rend` is exactly the in-range position with no in-range slot below it |
| `Vectors.RevIter.Plus` | src/vector/Vector.h:168-173 | reverse `+= k` fails with `TraversedVector` exactly when the target is below `rend`; otherwise it lands `k` steps on, in range |
| `Vectors.RevIter.Minus` | src/vector/Vector.h:179-184 | reverse `-= k` fails with `TraversedVector` exactly when the target is above `rbegin`; otherwise it lands `k` steps back, in range |
| `Vectors.RevIter.Deref` | src/vector/Vector.h:186-190 | reverse `*` yields the element at the position; `DerefRend` exactly at `rend` |
| `Vectors.RevIter.At` | src/vector/Vector.h:191-196 | reverse `it[k]` yields the element `k` slots down, the same one `*(it + k)` yields, and fails unless that slot is live |
| `Vectors.RevIter.Walk` | src/vector/Vector.h:135-140 | `k` repeated reverse pre-increments keep the owner |
| `Vectors.RevIter.NextPrevInverse` | src/vector/Vector.h:135-158 | reverse `++` and `--` undo each other on in-range iterators |
| `Vectors.RevIter.PlusIsRepeatedNext` | src/vector/Vector.h:159-173 | reverse `+= k` succeeds exactly when `k` single `++` steps do, and reaches the same iterator |
| `Vectors.RevIter.DistanceCountsSteps` | src/vector/Vector.h:185 | the reverse difference counts reverse `++` steps: after `k` steps it is `k`, and the reversed `<` agrees |
| `Vectors.RevIter.Distance` | src/vector/Vector.h:185 | the corrected reverse difference is positive exactly when `other < it` in reverse order, negative exactly when `it < other`, and zero exactly at the same position |
| `Vectors.RevIter.Less` | src/vector/Vector.h:200 | reverse `<` is the higher slot: no in-range iterator precedes `rbegin`, and `rend` precedes no in-range iterator |
| `Vectors.ForwardTraversal` | src/vector/Vector.h:255-256 | walking `k` steps from `begin()` and dereferencing reads `Contents()[k]` |
| `Vectors.ReverseTraversal` | src/vector/Vector.h:259-262 | walking `k` steps from `rbegin()` and dereferencing reads the elements back to front |
| `Scenarios.AppendMany` | src/vector/Vector.h:420-427 | `n` appends to an empty vector leave the pushed values in order, with fewer than `2n - 1` relocations and a capacity below `2n`: the amortized bound holds on the vector itself |
| `AsWritten.DestroyedSlotsAsWritten` | src/vector/Vector.h:582-590 | the destructor loop as written reaches only some of the live slots |
| `AsWritten.DestroySkipsLastElement` | src/vector/Vector.h:586-588 | on a non-empty vector exactly the last live slot is never destroyed |
| `AsWritten.EmplaceBackSlotAsWritten` | src/vector/Vector.h:437-438 | the returned slot lies past the old size |
| `AsWritten.EmplaceBackReturnsPastNewElement` | src/vector/Vector.h:432-439 | the returned slot is not the new element's; when the append leaves the block exactly full (always on the first append) it lies outside the block |
| `AsWritten.CopyAsWritten` | src/vector/Vector.h:346-354 | the copy's live elements are all the source's slots, live or not |
| `AsWritten.CopyAsWrittenExposesSlack` | src/vector/Vector.h:266-272 | with slack, the copy has more elements than the source, starting with the source's own |
| `AsWritten.ThreePushesLeaveSlack` | src/vector/Vector.h:218-219 | three appends to an empty vector leave size 3 in a block of 4 |
| `AsWritten.FillAsWritten` | src/vector/Vector.h:409-418 | `fill` as written makes every slot live and equal to `v` |
| `AsWritten.FillAsWrittenGrowsSize` | src/vector/Vector.h:412-417 | with slack, `fill` grows the size to the capacity |
| `AsWritten.ResizeGrowAsWritten` | src/vector/Vector.h:518-528 | the growing branch as written ends with size `n` |
| `AsWritten.ResizeAsWrittenOverAllocates` | src/vector/Vector.h:520-526 | the elements come out right, but the capacity differs from the intended one exactly when the vector was non-empty and `size + n` exceeded the capacity; copies of `v` are built beyond the new size |
| `AsWritten.MoveAssignAsWritten` | src/vector/Vector.h:383-399 | as written, only a self-move acts, and it empties the vector |
| `AsWritten.MoveAssignAsWrittenIsInverted` | src/vector/Vector.h:386 | a move between distinct vectors transfers nothing, and a self-move loses the elements |
| `AsWritten.SwapAsWritten` | src/vector/Vector.h:545-551 | `swap` as written leaves the other vector as it was |
| `AsWritten.SwapAsWrittenLosesElements` | src/vector/Vector.h:548-550 | `swap` as written empties `this` and loses its elements |
| `AsWritten.EraseResultAsWritten` | src/vector/Vector.h:579 | the returned position lies after the first erased one |
| `AsWritten.EraseResultAsWrittenSkips` | src/vector/Vector.h:567-579 | the follower element sits at `it1`; the returned `it2` skips `it2 - it1` elements and lies past the end when `2*it2 - it1 > size` |
| `AsWritten.FwdAtSlotAsWritten` | src/vector/Vector.h:107-112 | forward `it[k]` as written refuses only slots past `end` |
| `AsWritten.FwdAtAsWrittenReadsEnd` | src/vector/Vector.h:109-111 | an offset landing on `end` is accepted and reads the slot after the last element |
| `AsWritten.RevAtSlotAsWritten` | src/vector/Vector.h:191-196 | reverse `it[k]` as written refuses only slots below `rend` |
| `AsWritten.RevAtAsWrittenReadsRend` | src/vector/Vector.h:193-195 | an offset landing on `rend` is accepted and reads the slot before the first element |
| `AsWritten.RevDistanceAsWritten` | src/vector/Vector.h:185 | the reverse difference as written is the negated step count |
| `AsWritten.RevDistanceAsWrittenHasWrongSign` | src/vector/Vector.h:185 | `(it + k) - it` gives `-k`, although `it + k` is `k` steps ahead and compares greater |
| `AsWritten.ShiftUpAsWritten` | src/vector/Vector.h:452-454 | after the backward loop, slot `index` still holds its old element and `[index, size)` sits one slot up |
| `AsWritten.InsertOwnElementAsWritten` | src/vector/Vector.h:446-459 | inserting a reference to the vector's own slot `j` without reallocation: the tail is right, but the value stored at `index` is `s[j - 1]` when `j` lies after `index` |
| `AsWritten.InsertOwnElementAsWrittenReadsShifted` | src/vector/Vector.h:453-457 | for `index < j`, the result is `s[..index] + [s[j - 1]] + s[index..]`, which differs from inserting the value `s[j]` whenever `s[j - 1] != s[j]` |
| `AsWritten.InsertSecondAtBeginAsWritten` | src/vector/Vector.h:453-457 | `insert(begin(), v[1])` on `1, 2, 3` gives `1, 1, 2, 3` |

## Left out

- Process termination and the message printed to the standard error stream by `err::exit_if` are not modelled. An error result names the message instead, and the state is left as it was.
- The compile-time gate on range construction and `assign` (`require_forward_it`) is not modelled. A range is given as a `seq<T>`, so list and range construction are one constructor, `FromSeq`.
- `malloc`/`free`, placement `new` and explicit destructor calls are not modelled. The block is a Dafny array, which is never freed, so there is no destructor. Which slots get destroyed is stated on its own (`Storage.DestroyedSlots`), and the class does not use it.
- Move versus copy of elements is not modelled, because a value model cannot tell them apart. For the same reason `emplace` and `emplace_back` delegate to `insert` and `push_back`.
- `data()` is not modelled as a separate member: it would be the raw block, which is the `storage` field itself.
- Const iterators (`cbegin`, `cend`, `crbegin`, `crend`) and the mutable-to-const conversion are not modelled, because they change types only. They behave like `Begin`, `End`, `RBegin` and `REnd`.
- `operator->`, virtual dispatch, post-increment and post-decrement (which return the old value) and the non-mutating `it + k` and `k + it` are not modelled separately. In a value model they are `Next`, `Prev`, `Plus` and `Minus` with the old iterator kept.
- Writes through the references that `front()`, `back()`, `*it` and `it[k]` return are not modelled separately. Only the write through `operator[]` is modelled, as `Set`. Each of the others is `Set` at the same index after the same check: index 0, `size - 1`, the iterator's position, or the position plus `k`.
- The relational operators `==`, `!=`, `<=`, `>`, `>=` are not modelled separately. They all follow from `pos` and from `Less`. Datatype equality also compares owners, while the source compares addresses only. The two agree for iterators of one vector.
- Iterator invalidation is not modelled. Positions are indices, so in the model an iterator still means something after a reallocation, where the source's pointer would dangle. Using a stale iterator is left to the caller, as in the source. Operations that dereference or index with a caller's iterator require its position to be in range.
- The size is not modelled with 64-bit `size_t` wrap-around. `rbegin()` on an empty vector (which the source computes as `storage + 0 - 1`) is position `-1`.
- Pointer-level undefined behaviour, such as forming `storage - 1` or reading uninitialized slots, is not modelled. `AsWritten` models those reads as reads of the block's slack slots.
- `Vectors.Vector.PushBack`: `v` is a value captured at the call. The source takes `const T&`, which may refer into the vector's own block. When the block is full, `re_alloc` frees that block before `val` is read (lines 285, 426). Such aliasing is not modelled.
- `Vectors.Vector.EmplaceBack`: the same as `PushBack`; the arguments are read after `re_alloc` (lines 435, 437).
- `Vectors.Vector.Insert`: `v` is a value captured at the call. In the source, `val` may refer into the vector. It is read after the shift (lines 453-457), or after `re_alloc` freed the block; the first case is a finding below.
- `Vectors.Vector.Emplace`: the same as `Insert`, at lines 475-479.
- `Vectors.Vector.Resize`: `v` is a value captured at the call. In the source, a `val` referring into the vector is read after `re_alloc` (lines 523, 526). Such aliasing is not modelled.
- `Vectors.Vector.Fill`: `v` is a value captured at the call. In the source, `destroy()` frees the block before a `val` referring into it is read (lines 412, 417). Such aliasing is not modelled.
- `Vectors.Vector.Assign`: the range is a sequence captured at the call. In the source, a range over the vector itself is read after `destroy()` freed it (lines 338, 343). Such aliasing is not modelled.
- `Vectors.Vector.Sized`: its contract says only that the `n` elements are equal to each other. Dafny has no way to name `T()`, so the fill value is an arbitrary value of `T`.
- `Vectors.Vector.Insert`, `Emplace` and `Erase`: stale iterators are excluded by `requires`, because using one is undefined behaviour in the source.

## Findings

| source | as written | input that shows it | evidently intended | confidence | as-written member | corrected member |
|---|---|---|---|---|---|---|
| src/vector/Vector.h:587 | the destructor loop runs while `i < vec_size - 1`, so the last live element is never destroyed | any non-empty vector being destroyed, cleared or reallocated | destroy every slot in `[0, size)` | high, not executed | `AsWritten.DestroySkipsLastElement` | `Storage.DestroyedSlots` |
| src/vector/Vector.h:437-438 | `emplace_back` returns `storage[vec_size]` after the increment | `emplace_back` on an empty vector returns slot 1 of a 1-slot block | return the new element, slot `size - 1` | high, not executed | `AsWritten.EmplaceBackReturnsPastNewElement` | `Vectors.Vector.EmplaceBack` |
| src/vector/Vector.h:349-353 | `construct(rhs.vec_capacity)` sets the copy's size to the source's capacity, and the loop copies unused slots | copy a vector after three `push_back` calls (size 3, capacity 4): the copy has 4 elements | the copy's size equals the source's size | high, not executed | `AsWritten.CopyAsWrittenExposesSlack` | `Vectors.Vector.CopyOf` |
| src/vector/Vector.h:362-366 | copy assignment goes through the same `construct` and gets the same wrong size | assign from a vector with size 3 and capacity 4 | the target's size equals the source's size | high, not executed | `AsWritten.CopyAsWritten` | `Vectors.Vector.CopyAssign` |
| src/vector/Vector.h:412-417 | `fill` calls `construct(vec_capacity)`, which sets the size to the capacity | `fill(0)` on size 3 and capacity 4 gives 4 elements | overwrite the live elements and keep the size | high, not executed | `AsWritten.FillAsWrittenGrowsSize` | `Vectors.Vector.Fill` |
| src/vector/Vector.h:520-526 | the growing branch of `resize` reallocates when `size + n > capacity`, to `n + size` slots, and constructs `size` copies of `v` past the new end | `resize(3, v)` on size 2 and capacity 3 reallocates to 5 slots | reallocate to `n` only when `n > capacity`, and fill `[size, n)` | medium, not executed | `AsWritten.ResizeAsWrittenOverAllocates` | `Vectors.Vector.Resize` |
| src/vector/Vector.h:386 | move assignment acts only when `this == &rhs`, which inverts the self-assignment test | `a = std::move(b)` with distinct `a`, `b` leaves `a` unchanged; `a = std::move(a)` empties `a` | act when `this != &rhs` | high, not executed | `AsWritten.MoveAssignAsWrittenIsInverted` | `Vectors.Vector.MoveAssign` |
| src/vector/Vector.h:548-550 | `swap` goes through the inverted move assignment: the temporary takes `this`'s block, and both assignments then do nothing | `a.swap(b)` with `a = {1}`: `a` ends empty and `b` is unchanged | exchange the two vectors | high, not executed | `AsWritten.SwapAsWrittenLosesElements` | `Vectors.Vector.Swap` |
| src/vector/Vector.h:579 | `erase` returns the old `it2`, but after compaction the follower element sits at `it1` | `erase(begin(), end())` on 5 elements returns position 5 when the size is 0 | return an iterator at `it1`'s position | high, not executed | `AsWritten.EraseResultAsWrittenSkips` | `Vectors.Vector.Erase` |
| src/vector/Vector.h:110 | forward `it[k]` rejects only `it + k > end()`, so `it[k]` at `end()` reads the slot after the last element | `begin()[size]` | reject any slot that holds no live element, like `*` does | medium, not executed | `AsWritten.FwdAtAsWrittenReadsEnd` | `Vectors.FwdIter.At` |
| src/vector/Vector.h:194 | reverse `it[k]` rejects only `it - k < rend()`, so it reads `rend()`, the slot before the first | `rbegin()[size]` | reject any slot that holds no live element, like `*` does | medium, not executed | `AsWritten.RevAtAsWrittenReadsRend` | `Vectors.RevIter.At` |
| src/vector/Vector.h:185 | the reverse difference `a - b` is `a.ptr - b.ptr`, the negated step count, although `<` and `+=` on reverse iterators are reversed | `(rbegin() + 1) - rbegin()` gives -1 | `a - b == k` whenever `a == b + k` | medium, not executed | `AsWritten.RevDistanceAsWrittenHasWrongSign` | `Vectors.RevIter.DistanceCountsSteps` |
| src/vector/Vector.h:453-457 | `insert` shifts the tail up before it reads `val`, so a `val` that refers to a later element of the same vector reads that element's predecessor | `insert(begin(), v[1])` on `1, 2, 3` with capacity 4 gives `1, 1, 2, 3` | insert the value `val` had at the call: `2, 1, 2, 3` | medium, not executed | `AsWritten.InsertOwnElementAsWrittenReadsShifted` | `Vectors.Vector.Insert` |
