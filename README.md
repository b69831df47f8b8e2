# A verified model of the graphics starter kit's core

This project models, in Dafny, the sequential core of a small WebGPU/WebGL2
starter kit written in JavaScript, and proves the properties that code and
its tests rely on. The two stateful resource managers are modelled as classes
whose methods update fields in place:

- `Allocator.SlabAllocator` is the slab allocator over one byte buffer. Its
  free list of `{offset, size}` blocks is kept sorted, disjoint and
  non-adjacent. `Alloc` is first-fit and `Free` coalesces the freed block
  with its neighbours. Used plus free bytes always equal the total, live views
  never overlap free space, and freeing every view, in any order, gives back
  the single block of the whole slab.
- `Handles.HandlePool` is the generation-checked handle pool. It has a slot
  array, a per-slot generation array and a LIFO free stack. A handle packs
  into 32 bits as `gen * 2^indexBits + index`. `Destroy` bumps the slot's
  generation, so old handles stop resolving.

The rest of the core consists of smaller helpers. Each is modelled in the
form the code has: functions for expressions, methods with loop invariants
for loops, and call logs for the WebGPU device and the WebGL2 context.

- The coverage tool's text algorithms (`Coverage`): line starts, a binary
  search from offset to line, the per-character lexer that marks code lines,
  the range merge, and the covered lines.
- Texture arithmetic (`Texture`), upload guards and call sequences
  (`TextureUpload`), and the mipmap pass scheduler (`MipGen`).
- Backend and depth-format selection (`Backend`, `Depth`), clear colours
  (`ClearColor`), sampler presets (`Sampler`), canvas resizing (`Resize`) and
  bounding boxes (`Aabb`).
- The checkerboard texture generator (`Checker`).
- HTML escaping and the adapter HUD (`Hud`), and adapter-info normalisation
  and its summary (`AdapterInfo`).
- The URL, label and verdict logic of the headless smoke runner (`Smoke`).

Shared modules:

- `Js`: JavaScript numbers as exact reals with NaN and the infinities,
  `| 0`, `Math.floor` and `Math.max`.
- `Bits`: powers of two and integer logarithms.
- `Text`: string order, sort, join, numerals, trim and ASCII lower-casing.
- `Wrappers`: `Option`, `Result` and `Outcome`.
- `Seqs`: two concatenation facts.
- `Gpu` and `Gl`: the call logs.

Where the code and its documentation differ, the model follows the code.
For example, `getAdapterInfo` is documented as falling back to
`navigator.gpu`. In the code, a truthy `env.gpu` without `requestAdapter`
fails without looking at `navigator.gpu` (`AdapterInfo.Available`).

## Model

| member | source | states |
|---|---|---|
| Allocator.BytesPerElement | src/core/memory/allocator.js:16 | every typed-array element size is 1, 2, 4 or 8 |
| Allocator.FirstFit | src/core/memory/allocator.js:28-30 | the lowest index whose block holds `need` bytes, every earlier block being too small; none when no block is large enough |
| Allocator.SumBound | src/core/memory/allocator.js:74 | sorted, disjoint blocks inside `[lo, hi)` hold at most `hi - lo` bytes |
| Allocator.InFreeBounds | src/core/memory/allocator.js:17 | a free byte lies inside the slab |
| Allocator.CanonicalBlockOf | src/core/memory/allocator.js:17 | a byte of one block of the free list lies in no other block |
| Allocator.CarveBytes | src/core/memory/allocator.js:31-34 | carving removes exactly the first `need` bytes of the chosen block from the free bytes |
| Allocator.CarveSum | src/core/memory/allocator.js:32-35 | carving lowers the free total by exactly `need` |
| Allocator.CarveCanonical | src/core/memory/allocator.js:31-34 | carving, including removing an emptied block, keeps the list sorted, disjoint, non-adjacent and aligned |
| Allocator.InsertPlacement | src/core/memory/allocator.js:59-60 | the blocks before the insertion point end before the freed block, and the ones after start after it |
| Allocator.InsertShape | src/core/memory/allocator.js:61 | after the sorted insert only the freed block's two neighbours may touch it |
| Allocator.InsertBytes | src/core/memory/allocator.js:61 | the insert adds exactly the freed bytes |
| Allocator.InsertSum | src/core/memory/allocator.js:61 | the insert adds the freed size to the free total |
| Allocator.MergeShape | src/core/memory/allocator.js:67-68 | merging two touching neighbours keeps the list sorted with possible contact only at the merge point |
| Allocator.MergeBytes | src/core/memory/allocator.js:67-68 | a merge keeps the free bytes |
| Allocator.MergeSum | src/core/memory/allocator.js:68 | a merge keeps the free total |
| Allocator.SkipShape | src/core/memory/allocator.js:65-67 | a gap between neighbours lets the coalescing scan move on |
| Allocator.CoalesceDone | src/core/memory/allocator.js:65 | when the scan reaches the end the list is canonical |
| Allocator.CanonicalUnique | src/core/memory/allocator.js:58-70 | two canonical free lists with the same free bytes are equal: the free list is determined by the free bytes alone |
| Allocator.WholeSlab | src/core/memory/allocator.js:17 | a canonical list holding every byte of the slab is the single block `[0, total)` |
| Allocator.SlabAllocator.constructor | src/core/memory/allocator.js:10-22 | the whole slab is one free block, nothing is used and nothing is live |
| Allocator.SlabAllocator.Create | src/core/memory/allocator.js:10-13 | fails exactly when `totalBytes` is not a multiple of the element size; otherwise a fresh valid slab of that size and element type, one free block, nothing used and no live views |
| Allocator.SlabAllocator.UsedBytes | src/core/memory/allocator.js:73 | used plus free bytes is the slab size |
| Allocator.SlabAllocator.FreeBytes | src/core/memory/allocator.js:74 | the sum of the free sizes, which with the used bytes makes the slab size |
| Allocator.SlabAllocator.Alloc | src/core/memory/allocator.js:24-42 | succeeds exactly when the count is positive and some free block fits `count * bpe` bytes; a count of at most 0, or no block that fits, fails without change; otherwise the view starts at the first fitting block, which is carved from the front, `used` grows by `count * bpe`, the view is new and live and element-aligned, and the invariant holds |
| Allocator.SlabAllocator.AllocKeepsValid | src/core/memory/allocator.js:31-37 | the state after a successful alloc satisfies the invariant |
| Allocator.SlabAllocator.Free | src/core/memory/allocator.js:44-71 | a foreign view, then a view not live, fail without change; otherwise the view is no longer live, `used` drops by its length, the free bytes gain exactly its bytes, and the free list stays sorted, disjoint and non-adjacent |
| Allocator.SlabAllocator.PutBack | src/core/memory/allocator.js:58-70 | the sorted insert and coalescing give a canonical list of the old free bytes plus the block |
| Allocator.SlabAllocator.InsertFacts | src/core/memory/allocator.js:59-61 | after the insert the list needs coalescing only around the new block and holds its bytes |
| Allocator.SlabAllocator.Coalesce | src/core/memory/allocator.js:64-70 | the coalescing loop, including its `j--`, ends with a canonical list of the same bytes and total |
| Allocator.SlabAllocator.FreeKeepsValid | src/core/memory/allocator.js:52-70 | the state after a successful free satisfies the invariant |
| Allocator.SlabAllocator.FreeAll | src/core/memory/allocator.js:44-71 | freeing every live view once, in any order, leaves the single block `[0, total)` and nothing used |
| Allocator.SlabAllocator.AllFreeIsOneBlock | src/core/memory/allocator.js:58-70 | with no live view, the free list is the single whole block and nothing is used |
| Handles.CapacityOf | src/runtime/handles.js:22 | `max(1, (capacity \| 0) \|\| 1024)` lies in `[1, 2^31)`, since `\| 0` is a signed 32-bit value |
| Handles.CapacityOfCases | src/runtime/handles.js:22 | absent, infinite or NaN gives 1024; an integer in `[1, 2^31)` is kept; a negative one down to `-2^31` gives 1 |
| Handles.IndexBits | src/runtime/handles.js:26-28 | `ceil(log2(cap)) \|\| 1` is between 1 and 31 and is the least `b >= 1` with `cap <= 2^b`, so the 32-bit check never fires |
| Handles.Countdown | src/runtime/handles.js:37 | the initial stack holds `cap - 1 - k` at position `k` |
| Handles.PackDecode | src/runtime/handles.js:107-115 | a packed handle fits its bits, and its low bits are the index and its masked high bits the generation |
| Handles.PackFits | src/runtime/handles.js:56-62 | with 32 bits in all, masking the generation and the `>>> 0` of the packed handle change nothing |
| Handles.PackInjective | src/runtime/handles.js:62 | different (generation, index) pairs pack to different handles |
| Handles.NextGenDiffers | src/runtime/handles.js:94 | the bumped generation, masked to at least one bit, differs from the old one |
| Handles.SplitHigh | src/runtime/handles.js:115 | below `p * q` the quotient needs no masking |
| Handles.GenSplit | src/runtime/handles.js:107-115 | a 32-bit number is its masked high part times `2^indexBits` plus its index bits |
| Handles.RecycledHandleDiffers | src/runtime/handles.js:94 | the handle a recycled slot hands out next differs from the destroyed one |
| Handles.Uint32Of | src/runtime/handles.js:101-107 | a valid handle number is an integer below 2^32, which `>>> 0` keeps |
| Handles.NumberOfValid | src/runtime/handles.js:101-103 | every packed handle below 2^32 passes `_isFiniteUint32` and reads back as itself |
| Handles.DistinctBound | src/runtime/handles.js:36-38 | distinct slot indices below `n` number at most `n` |
| Handles.CreateStep | src/runtime/handles.js:55-59 | popping a slot and storing a value keeps the slot arrays well formed |
| Handles.DestroyStep | src/runtime/handles.js:93-96 | emptying a slot, bumping its generation and pushing it keeps them well formed |
| Handles.StackRoom | src/runtime/handles.js:95 | while a slot is occupied the stack has room for the push |
| Handles.InitialSlots | src/runtime/handles.js:34-38 | empty slots of generation 0, all on the stack, are well formed |
| Handles.HandlePool.constructor | src/runtime/handles.js:23-39 | capacity, bit split `indexBits + genBits == 32`, stack `[cap - 1, ..., 0]`, generations 0, no values, nothing live |
| Handles.HandlePool.New | src/runtime/handles.js:21-40 | the constructor with the capacity computed from the option |
| Handles.HandlePool.Storage | src/runtime/handles.js:34-37 | fresh arrays of the capacity: no values, generation 0, the countdown stack |
| Handles.HandlePool.FillStack | src/runtime/handles.js:37 | the loop fills position `k` with `cap - 1 - k` |
| Handles.HandlePool.LiveCount | src/runtime/handles.js:43 | the live count is the capacity minus the stack size |
| Handles.HandlePool.Capacity | src/runtime/handles.js:46 | at least one slot, and every index fits the index bits |
| Handles.HandlePool.PackedHandle | src/runtime/handles.js:56-62 | the masked, packed and wrapped handle of a slot is its current handle, below 2^32 |
| Handles.HandlePool.DecodeIndex | src/runtime/handles.js:105-111 | the type error exactly when the number is not a 32-bit unsigned integer; the range error exactly when its low bits are not below the capacity; otherwise those bits |
| Handles.HandlePool.DecodeGen | src/runtime/handles.js:113-116 | the masked high bits, which with the low bits rebuild the handle |
| Handles.HandlePool.Get | src/runtime/handles.js:71-79 | a non-handle number fails with the type error |
| Handles.HandlePool.LiveHandleResolves | src/runtime/handles.js:71-79 | the current handle of a slot resolves to its value, or is stale when the slot is empty |
| Handles.HandlePool.GetOkIsCurrent | src/runtime/handles.js:71-79 | only the current handle of an occupied slot resolves, and to that slot's value |
| Handles.HandlePool.Create | src/runtime/handles.js:53-64 | fails with `Out of handles` exactly on an empty stack, changing nothing; otherwise pops the top slot, stores the value, returns its current handle below 2^32, which then resolves to the value |
| Handles.HandlePool.Destroy | src/runtime/handles.js:85-97 | fails exactly when `get` would, with the same error and no change; otherwise empties the slot, bumps its generation modulo `2^genBits`, pushes it and decrements the live count, after which the handle is stale |
| Handles.HandlePool.Release | src/runtime/handles.js:93-96 | empties the slot, bumps its generation, pushes it and decrements the live count |
| Coverage.NewlinesSnoc | tools/coverage.js:40 | appending a character adds one newline exactly when it is `\n` |
| Coverage.LineStarts | tools/coverage.js:37-43 | the index is never empty and starts at 0 |
| Coverage.LineStartsLength | tools/coverage.js:38-40 | one entry per newline plus the first line's |
| Coverage.LineStartsSound | tools/coverage.js:38-42 | the first entry is 0, every further entry is one past a newline, and the entries strictly increase |
| Coverage.LineStartsComplete | tools/coverage.js:40 | one past every newline is an entry |
| Coverage.LineStartsShape | tools/coverage.js:37-43 | the four facts above together |
| Coverage.LineStartsOf | tools/coverage.js:37-43 | the loop builds exactly the index of the whole text |
| Coverage.LineOf | tools/coverage.js:45-53 | the greatest `L` with `lineStarts[L] <= offset`, or 0 when there is none |
| Coverage.OffsetToLine | tools/coverage.js:45-53 | the binary search over sorted starts terminates with that line |
| Coverage.Scan | tools/coverage.js:62-96 | the lexer run from position `i`: one flag per line ended, from the state each round of the loop leaves, plus the unterminated last line's flag |
| Coverage.Step | tools/coverage.js:62-94 | one round of the lexer: a line's flag is recorded exactly at its newline and reset; line comments end at the newline; block comments and strings carry across it; a block comment ends at `*/`; no comment opens inside a string; a backslash escapes the next character; the flag is set only by a non-space character outside comments and strings that is not a quote |
| Coverage.MaskOf | tools/coverage.js:57-98 | `codeLineMask(source)`: the scan of the whole text from the initial lexer state (no block comment, line comment or string open) |
| Coverage.ScanUnfold | tools/coverage.js:62-94 | the scan from position `i` is one lexer round followed by the scan after it |
| Coverage.ScanLength | tools/coverage.js:66-96 | the scan records one flag per newline plus one for an unterminated last line |
| Coverage.MaskLength | tools/coverage.js:66-96 | the mask length is the number of newlines, plus one when the text is non-empty and does not end in a newline |
| Coverage.CodeLineMask | tools/coverage.js:57-98 | the loop, with its double-character skips, computes exactly the scan's mask, of that length |
| Coverage.LexChar | tools/coverage.js:63-93 | the loop body computes exactly one lexer round |
| Coverage.Executed | tools/coverage.js:105-107 | the `[startOffset, endOffset]` pairs of the ranges with `count > 0`, function by function and range by range |
| Coverage.KeptMembers | tools/coverage.js:106 | an interval is kept exactly when a range with a positive count has its offsets |
| Coverage.ExecutedMembers | tools/coverage.js:105-107 | the executed intervals are exactly the positive-count ranges of all functions |
| Coverage.Flatten | tools/coverage.js:104-107 | the nested loops collect exactly the executed intervals, in order |
| Coverage.InsertByStartPerm | tools/coverage.js:111 | inserting keeps every interval and adds the new one |
| Coverage.InsertByStartSorted | tools/coverage.js:111 | inserting into intervals sorted by start keeps them sorted |
| Coverage.SortByStartCorrect | tools/coverage.js:111 | the sort by start is a permutation whose starts never decrease |
| Coverage.SameMembersCover | tools/coverage.js:111 | reordering the intervals keeps the covered offsets |
| Coverage.CoveredSnoc | tools/coverage.js:117 | appending an interval adds exactly its offsets |
| Coverage.CoveredWiden | tools/coverage.js:116 | widening the last interval to `max(end, cur.end)` adds exactly the current interval's offsets |
| Coverage.WidenStep | tools/coverage.js:116 | an overlapping or touching interval widens the last one and keeps the loop state |
| Coverage.PushStep | tools/coverage.js:117 | a later interval is appended and keeps the loop state |
| Coverage.Coalesce | tools/coverage.js:112-119 | the result is sorted, each interval ends strictly before the next starts, it covers exactly the offsets of the input, and each input interval, empty ones included, lies within one result interval |
| Coverage.MergeRanges | tools/coverage.js:102-120 | empty exactly when nothing ran; otherwise separated intervals covering exactly the executed offsets, each executed range, empty ones included, lying within one of them |
| Coverage.IncreasingAt | tools/coverage.js:45-53 | a strictly increasing index is sorted pointwise |
| Coverage.LineOfMonotone | tools/coverage.js:45-53 | a later offset is never on an earlier line |
| Coverage.LineOfStart | tools/coverage.js:45-53 | the start of a line lies on that line |
| Coverage.LineSpan | tools/coverage.js:127 | exactly the lines `a` through `b` |
| Coverage.LinesOfMembers | tools/coverage.js:124-128 | a line is marked exactly when it lies between the first and last line of some interval |
| Coverage.OffsetLineMarked | tools/coverage.js:124-128 | the line of every covered offset is marked |
| Coverage.MarkedLineTouched | tools/coverage.js:125-127 | every marked line of a non-empty interval holds one of its offsets |
| Coverage.MarkLines | tools/coverage.js:127 | the inner loop adds exactly lines `a` through `b` |
| Coverage.CoveredLinesFromRanges | tools/coverage.js:122-130 | the set of lines from `offsetToLine(max(0, start))` to `offsetToLine(max(0, end - 1))` of every interval |
| Checker.CellIndex | public/lib/checker.js:6 | `(x * cells / w) \| 0` on integers: the quotient truncated toward zero, wrapped to a signed 32-bit integer |
| Checker.FloorOfQuotient | public/lib/checker.js:6 | the floor of a real quotient of a non-negative integer by a positive one is their integer quotient |
| Checker.CellIndexIsJs | public/lib/checker.js:6 | the integer cell index equals JavaScript's `(x * cells / w) \| 0` |
| Checker.Shade | public/lib/checker.js:6 | `((cx ^ cy) & 1) ? 220 : 60` on the 32-bit patterns of the two cell indices |
| Checker.PixelAt | public/lib/checker.js:7 | four bytes per pixel |
| Checker.Row | public/lib/checker.js:4-7 | a row prefix of `x` pixels holds `4x` bytes |
| Checker.RowsLength | public/lib/checker.js:3-4 | `y` rows of `w` pixels hold `4 * y * w` bytes |
| Checker.RowAt | public/lib/checker.js:5-7 | byte `c` of pixel `x` of a row is at `4x + c` |
| Checker.RowsAt | public/lib/checker.js:5-7 | byte `c` of pixel `(x, y)` is at `4(y * w) + 4x + c` |
| Checker.LowBit | public/lib/checker.js:6 | `& 1` of a 32-bit pattern is the parity |
| Checker.ModKeepsParity | public/lib/checker.js:6 | reducing modulo 2^32 keeps the parity |
| Checker.Int32LowBit | public/lib/checker.js:6 | the low bit of an int32's two's-complement pattern is its parity |
| Checker.XorOdd | public/lib/checker.js:6 | the low bit of an exclusive or is set iff exactly one low bit is |
| Checker.SumOdd | public/lib/checker.js:6 | a sum is odd iff exactly one summand is |
| Checker.ShadeParity | public/lib/checker.js:6 | the shade is 220 iff the sum of the two cell indices is odd, else 60 |
| Checker.CellIndexIsFloor | public/lib/checker.js:6 | for non-negative counts the cell index is `floor(x * cells / w)` |
| Checker.PixelInBounds | public/lib/checker.js:3-5 | every in-image pixel's four bytes lie inside the data |
| Checker.PixelIndexInjective | public/lib/checker.js:5 | distinct pixels start at distinct indices, so each index is written once |
| Checker.MakeCheckerRGBA8 | public/lib/checker.js:2-10 | width and height are the arguments or 256, the data holds `w * h * 4` bytes, and for a non-empty image it is exactly the checkerboard image, cells defaulting to 8; the copy at public/lib/harness.js lines 34-42 is the same generator |
| Checker.FillPixels | public/lib/checker.js:4-8 | the nested loops write exactly the image, row after row |
| Checker.FillRow | public/lib/harness.js:36-39 | one pass of the inner loop appends one row, leaving the rows before it |
| Checker.RowFits | public/lib/checker.js:4-5 | row `y` fits in the data |
| Checker.ImagePixel | public/lib/harness.js:37-39 | pixel `(x, y)` is at `(y * w + x) * 4`: red equals green and is 220 iff the cell sum is odd, else 60; blue and alpha are 255 |
| Checker.IndexDecodes | public/lib/harness.js:36-37 | every byte of the data is channel `j % 4` of exactly one in-image pixel |
| Js.ToInt32 | src/gfx/mipgen.js:110 | `n \| 0` lies in the signed 32-bit range, is 0 for NaN and the infinities, and is the truncation of any finite value already in range |
| Js.WrapInt32 | src/runtime/handles.js:22 | the reduction into the signed 32-bit range agrees with its argument modulo 2^32 and keeps values already in range |
| Js.Trunc | src/gfx/mipgen.js:110 | truncation toward zero: the integer within distance 1 of `x` on the side of 0 |
| Js.FloorNum | src/gfx/texture.js:11 | `Math.floor` keeps NaN and the infinities and floors finite values |
| Js.MaxNum | src/gfx/texture.js:13 | `Math.max` is NaN when either argument is; otherwise it is one of them and below neither |
| Bits.CeilLog2 | src/runtime/handles.js:26 | `ceil(log2(n))` as the exponent `r` with `2^(r-1) < n <= 2^r` |
| Bits.CeilLog2Least | src/runtime/handles.js:26 | it is the least exponent whose power of two reaches `n` |
| Bits.FloorLog2 | src/gfx/texture_upload.js:71 | `floor(log2(n))` as the exponent `r` with `2^r <= n < 2^(r+1)` |
| Bits.FloorLog2Unique | src/gfx/texture_upload.js:71 | only one exponent brackets `n` between consecutive powers of two |
| Text.Sort | src/gfx/adapter_info.js:58 | the default `sort()`, written as an insertion sort into ascending character order |
| Text.SortCorrect | src/gfx/adapter_info.js:58 | the default `sort()` yields an ascending list holding exactly the given strings |
| Text.SortedUnique | src/gfx/adapter_info.js:58 | two ascending lists holding the same strings are equal |
| Text.SortOrderFree | src/gfx/hud.js:13 | sorting two orderings of the same strings gives the same list |
| Text.Join | src/gfx/adapter_info.js:145 | `join(sep)`: empty for no items, the item itself for one, else the first item, the separator and the join of the rest |
| Text.JoinLength | src/gfx/adapter_info.js:145 | `join(sep)` is as long as the items plus one separator between each pair of neighbours |
| Text.JoinHasItems | src/gfx/adapter_info.js:145 | each item occurs in the joined string at the offset its predecessors and separators take |
| Text.NatToString | src/gfx/adapter_info.js:151 | `String(v)` of a natural number: its decimal digits, most significant first, without leading zeros |
| Text.DigitsOfNat | tools/smoke_headless.js:163-164 | `parseInt(String(n), 10)` reads back `n` |
| Text.NatToStringInjective | src/gfx/adapter_info.js:151 | distinct numbers have distinct numerals |
| Text.Trim | src/gfx/hud.js:35 | `.trim()`: white space dropped from both ends, nothing else changed |
| Text.ToLowerAscii | tools/smoke_headless.js:180 | `toLowerCase()` maps each ASCII upper-case letter to its lower-case letter and keeps every other character |
| Text.ToLowerIdempotent | tools/smoke_headless.js:180 | lower-casing twice is lower-casing once |
| Aabb.ContainsPoint | src/core/math/aabb.js:12-17 | `containsPoint(p)`: `min <= p <= max` on the x, y and z axes under JavaScript's `<=`; it holds only when the point and both corners are free of NaN |
| Aabb.NewAABB | src/core/math/aabb.js:7-10 | the box holds the given corners by value; an omitted corner is the origin |
| Aabb.Intersects | src/core/math/aabb.js:19-23 | `intersects(other)`: no axis where one box's max lies below the other's min under JavaScript's `<` |
| Aabb.ContainsIffPointBox | src/core/math/aabb.js:12-23 | a point with a NaN coordinate lies in no box; for NaN-free corners and point, containment agrees with intersecting the degenerate box `[p, p]` |
| Aabb.IntersectsSymmetric | src/core/math/aabb.js:19-23 | `a.intersects(o)` equals `o.intersects(a)` for all boxes, NaN coordinates included |
| Aabb.IntersectsIffOverlap | src/core/math/aabb.js:19-23 | for NaN-free boxes: they intersect iff their intervals overlap on every axis, touching faces counting |
| Aabb.NotLessThrough | src/core/math/aabb.js:14-22 | `b <= p <= c` on JS numbers excludes `c < b` |
| Aabb.SharedPointIntersects | src/core/math/aabb.js:12-23 | a point contained in both boxes makes them intersect |
| Aabb.ProperBoxContainsCorners | src/core/math/aabb.js:12-23 | a box with `min <= max` on each axis contains both corners and intersects itself |
| Aabb.TouchingFacesCount | src/core/math/aabb.js:19-23 | boxes sharing a face or a corner intersect; boxes a unit apart do not; containment includes the faces |
| Aabb.NaNCoordinates | src/core/math/aabb.js:12-23 | with NaN coordinates no point is contained, and intersection is not refuted |
| Depth.ChooseDepthFormat | src/gfx/depth.js:11-19 | fails exactly when no fallback is supported; otherwise returns the first fallback, in list order, that is supported; defaults are the empty set and `depth24plus`, `depth32float` |
| Depth.BeginDepthRenderPassDescriptor | src/gfx/depth.js:30-53 | one colour attachment and one depth attachment on the given views, `clear`/`store` on both, clear colour and depth passed through or defaulted |
| Depth.DepthDescriptorDefaults | src/gfx/depth.js:33-34 | the defaults are opaque black and depth 1.0; explicit values pass through |
| Sampler.KindName | src/gfx/sampler.js:30-38 | the kind the `switch` looks at: `undefined` takes the default `linearClamp`, a string is itself, any other value matches no case |
| Sampler.CreateSamplerPreset | src/gfx/sampler.js:30-71 | unknown or non-string kinds fail with the kind; the repeat kinds repeat on all three axes and the others clamp; the nearest kinds filter to nearest and the others linearly; only `mipmapLinear` has a mipmap filter and the LOD clamp `[0, 32]` |
| Sampler.DefaultIsLinearClamp | src/gfx/sampler.js:30-40 | `undefined` gives the `linearClamp` descriptor |
| Sampler.PresetsDistinct | src/gfx/sampler.js:38-67 | two different known kinds never give the same descriptor |
| Sampler.UnknownKinds | src/gfx/sampler.js:68-69 | kind names are case-sensitive; `null` and numbers are unknown |
| Backend.Offered | src/gfx/backend.js:40-45 | the features an array or a `Set` offers; an absent list offers none |
| Backend.HasAllFeatures | src/gfx/backend.js:36-46 | holds iff there are no requirements or every required feature is offered by the list (an absent list offers nothing) |
| Backend.NothingRequired | src/gfx/backend.js:37 | a missing or empty requirement list is satisfied, with or without a feature list |
| Backend.NoListFailsRequirements | src/gfx/backend.js:38 | a non-empty requirement list is not satisfied without a feature list |
| Backend.ArrayAgreesWithSet | src/gfx/backend.js:40-45 | an array of features and the `Set` of its elements answer alike |
| Backend.SelectBackend | src/gfx/backend.js:61-76 | `webgpu` iff WebGPU is available and has every required feature; `webgl2` only when WebGL2 is available; otherwise the error |
| Backend.FallbackOrder | src/gfx/backend.js:66-75 | `webgl2` exactly when WebGPU does not qualify and WebGL2 is available; the error exactly when neither qualifies |
| Backend.NoEnvironmentFails | src/gfx/backend.js:62-75 | a falsy environment or one with neither part fails |
| Resize.NormDim | src/gfx/resize.js:9-13 | fails with the type error exactly on a non-finite input; otherwise `max(1, floor(v))` |
| Resize.NormDimIdempotent | src/gfx/resize.js:9-13 | a normalised dimension normalises to itself |
| Resize.NormDimExamples | src/gfx/resize.js:10-11 | 640.7 gives 640, 0 and -5 give 1, NaN and Infinity fail |
| Resize.Canvas.constructor | src/gfx/resize.js:20 | a canvas with the given width and height |
| Resize.ConfigureArgs | src/gfx/resize.js:38 | `{device, format, ...options}`: the keys of the options plus `device` and `format`, the options winning |
| Resize.ResizeWebGPU | src/gfx/resize.js:29-42 | a bad dimension fails before any change; otherwise the canvas takes the new size, `reconfigured` says whether either dimension changed, and `configure` is called once exactly then |
| Resize.ResizeWebGPUTwice | src/gfx/resize.js:33-41 | repeating a resize reports no change and adds no `configure` call |
| Resize.ResizeWebGL2 | src/gfx/resize.js:53-62 | a bad dimension fails before any change; otherwise the canvas takes the new size and `viewport(0, 0, w, h)` is called |
| ClearColor.CheckComponents | src/gfx/clearcolor.js:24-31 | passes iff every component is a finite number in `[0, 1]`; otherwise the error is that of the first component, in order, that is not |
| ClearColor.Components | src/gfx/clearcolor.js:22 | `[r, g, b, a = 1]`: the first three items, then the fourth unless it is missing or `undefined`, else 1 |
| ClearColor.NormalizeClearColor | src/gfx/clearcolor.js:15-34 | the shape error exactly for a non-array or a length other than 3 or 4; success exactly when all four components are in range, returning them unchanged; otherwise the first bad component's error |
| ClearColor.NormalizeDefaultsAlpha | src/gfx/clearcolor.js:22 | a missing or `undefined` alpha becomes 1 |
| ClearColor.NormalizeErrorOrder | src/gfx/clearcolor.js:24-31 | the first bad component decides between the range error and the finiteness error |
| ClearColor.NormalizeBadShape | src/gfx/clearcolor.js:16-21 | two items, five items and a non-array are refused with the shape error |
| ClearColor.NormalizeKeepsValid | src/gfx/clearcolor.js:33 | a valid colour comes back unchanged |
| ClearColor.BeginRenderPassDescriptor | src/gfx/clearcolor.js:44-54 | fails with the normalisation error; otherwise one attachment on the same view with the normalised colour, `clear` and `store` |
| ClearColor.ApplyGLClear | src/gfx/clearcolor.js:62-66 | an invalid colour makes no call; a valid one records `clearColor(r, g, b, a)` then `clear(COLOR_BUFFER_BIT)` |
| Texture.MipLevels | src/gfx/texture.js:15 | `floor(log2(m)) + 1` as the unique `r >= 1` with `2^(r-1) <= m < 2^r` |
| Texture.MipLevelsUnique | src/gfx/texture.js:15 | only one level count brackets `m` between consecutive powers of two |
| Texture.ClampDim | src/gfx/texture.js:11-12 | `max(1, floor(x))` of a finite side |
| Texture.ComputeMipCount | src/gfx/texture.js:10-16 | NaN in gives NaN; finite sides give the level count of the larger clamped side; `+Infinity` gives `+Infinity` |
| Texture.MipCountBounds | src/gfx/texture.js:10-16 | the result `m` is at least 1 and `2^(m-1) <= M < 2^m` for `M = max(floor(w), floor(h), 1)` |
| Texture.SmallSidesCountAsOne | src/gfx/texture.js:11 | a side below 1, or `-Infinity`, counts as 1 |
| Texture.MipCountOfOne | src/gfx/texture.js:11-15 | a single texel has one level; sides below 1 count as 1 |
| Texture.MipCountOf320 | src/gfx/texture.js:14-15 | a 320 by 200 texture has 9 levels |
| Texture.MipCountOf1024 | src/gfx/texture.js:15 | a 1024 by 512 texture has 11 levels |
| Texture.AlignUp | src/gfx/texture.js:26-28 | a multiple of 256 that is at least `raw` and less than `raw + 256` |
| Texture.AlignUpUnique | src/gfx/texture.js:28 | that multiple is the only one in `[raw, raw + 256)` |
| Texture.NonNegFloor | src/gfx/texture.js:25 | `max(0, floor(n))`: NaN and `+Infinity` stay, `-Infinity` becomes 0 |
| Texture.RawRow | src/gfx/texture.js:25 | the unaligned row of finite arguments is non-negative |
| Texture.ComputeBytesPerRow | src/gfx/texture.js:24-29 | finite arguments give the aligned raw row; NaN gives NaN; `-Infinity` width gives 0 |
| Texture.BytesPerRowBounds | src/gfx/texture.js:25-28 | the row is a multiple of 256, holds the raw row, and pads by less than 256 |
| Texture.BytesPerRowExamples | src/gfx/texture.js:24-29 | (256, 4) gives 1024, (257, 4) gives 1280, width 0 gives 0, `Infinity * 0` gives NaN |
| TextureUpload.ComputeBytesPerRow | src/gfx/texture_upload.js:21-25 | a multiple of 256, at least 256, holding `max(1, width \| 0) * max(1, bpp \| 0)` with less than 256 of padding |
| TextureUpload.IsFinitePosInt | src/gfx/texture_upload.js:31-33 | `Number.isFinite(n) && n > 0 && (n \| 0) === n`: a finite number above 0 that the 32-bit conversion leaves unchanged; non-numbers fail |
| TextureUpload.IsFinitePosIntIff | src/gfx/texture_upload.js:31-33 | `isFinitePosInt` holds exactly of the integers from 1 below 2^31 (`n \| 0` changes larger ones) |
| TextureUpload.Dim | src/gfx/texture_upload.js:54-57 | a guarded dimension is an integer in `[1, 2^31)` |
| TextureUpload.BitAndSelf | src/gfx/texture_upload.js:35 | `a & a == a` on the bitwise model |
| TextureUpload.PowerOfTwoIsPow2 | src/gfx/texture_upload.js:34-36 | the recursive power-of-two test means `n == 2^k` for some `k` |
| TextureUpload.Pow2IsPowerOfTwo | src/gfx/texture_upload.js:34-36 | every `2^k` passes the recursive power-of-two test |
| TextureUpload.BitTestIsPowerOfTwo | src/gfx/texture_upload.js:35 | for `n >= 1`, `n & (n - 1)` is 0 exactly for powers of two |
| TextureUpload.IsPOT | src/gfx/texture_upload.js:34-36 | `(n & (n - 1)) === 0` for an integer `n` from 0 below 2^31, where `0 & -1` is 0 |
| TextureUpload.IsPOTIff | src/gfx/texture_upload.js:34-36 | `isPOT(n)` of a positive 31-bit `n` holds iff `n` is a power of two |
| TextureUpload.LevelCount | src/gfx/texture_upload.js:144-147 | 1 without mips; with mips the `n` with `2^(n-1) <= max(w, h) < 2^n`, the formula the WebGPU descriptor also uses |
| TextureUpload.UploadDescriptor | src/gfx/texture_upload.js:63-73 | size, `rgba8unorm`, `2d`, the label, the level count, and usage `[TEXTURE_BINDING, COPY_DST]` plus `RENDER_ATTACHMENT` exactly with mips |
| TextureUpload.GpuUploadCalls | src/gfx/texture_upload.js:75-85 | `createTexture` with that descriptor first, an optional `createView`, and last the level-0 write with the 256-aligned row pitch and `rowsPerImage = h` |
| TextureUpload.UploadTextureRGBA8WebGPU | src/gfx/texture_upload.js:50-88 | the dimension error before the size error, both without calls; otherwise exactly the calls above and the size, level count and format |
| TextureUpload.UploadRowPitch | src/gfx/texture_upload.js:79 | the base-level row pitch is the multiple of 256 in `[4w, 4w + 256)` |
| TextureUpload.GlUploadCalls | src/gfx/texture_upload.js:124-155 | nine calls, ten with mips: create and bind first, unbind last |
| TextureUpload.GlUploadCallsContents | src/gfx/texture_upload.js:127-153 | the pixels are uploaded, both wrap modes clamp, and `generateMipmap` and the trilinear filter appear iff mips, the linear one iff not |
| TextureUpload.Issue | src/gfx/texture_upload.js:124-155 | one call appended to the log |
| TextureUpload.IssueSetup | src/gfx/texture_upload.js:124-142 | appends exactly the setup calls, in order |
| TextureUpload.IssueFilters | src/gfx/texture_upload.js:144-153 | appends exactly the mipmap and filter calls, in order |
| TextureUpload.UploadTextureRGBA8WebGL2 | src/gfx/texture_upload.js:105-166 | an invalid context, then bad dimensions, then short data, then NPOT with mips are refused in that order without calls; otherwise exactly the calls above on a new texture, with the level count |
| MipGen.AssertDim | src/gfx/mipgen.js:109-115 | succeeds iff the number is finite and `n \| 0` is positive, returning `n \| 0`; otherwise the range error naming the argument |
| MipGen.AssertDimCases | src/gfx/mipgen.js:109-115 | integers from 1 below 2^31 pass, fractions are cut, values in `(-1, 1)` and non-finite ones fail |
| MipGen.Levels | src/gfx/mipgen.js:129 | `max(1, mipLevelCount \| 0)`, between 1 and 2^31 |
| MipGen.ScheduleShape | src/gfx/mipgen.js:136-163 | exactly `levels - 1` passes of eight calls, the `i`-th rendering level `i` from a view of level `i - 1` |
| MipGen.PipelineCallsBuildOnce | src/gfx/mipgen.js:84-102 | building issues one pipeline and one sampler |
| MipGen.ScheduleBuildsNothing | src/gfx/mipgen.js:136-163 | the passes create no pipeline and no sampler |
| MipGen.MipGenerator.constructor | src/gfx/mipgen.js:47-51 | a generator with the format, no pipeline yet and no calls |
| MipGen.MipGenerator.EnsurePipeline | src/gfx/mipgen.js:84-102 | builds the pipeline and sampler only when they do not exist yet |
| MipGen.MipGenerator.IssuePass | src/gfx/mipgen.js:137-162 | records exactly one pass: two views, a bind group, a pass with a clear to black, the pipeline, the bind group, `draw(3)`, `end` |
| MipGen.MipGenerator.Generate | src/gfx/mipgen.js:126-164 | a bad width, then a bad height, fail without calls; otherwise builds on demand and records the passes for levels 1 to `levels - 1`, nothing when `levels <= 1` |
| MipGen.MipGenerator.RenderLevels | src/gfx/mipgen.js:129-163 | the calls after the checks: nothing for one level, else the build once and then the ascending passes |
| MipGen.MakeMipGenerator | src/gfx/mipgen.js:43-51 | fails exactly without a device; the format is `opts.format` when it is a string, else `rgba8unorm` |
| MipGen.SecondGenerateBuildsNothing | src/gfx/mipgen.js:85 | once built, a later `generate` builds neither pipeline nor sampler |
| AdapterInfo.StringToNumber | src/gfx/adapter_info.js:66 | unary `+` of a string: trimmed; empty gives 0; an optional sign, then `Infinity` or a decimal numeral; anything else NaN |
| AdapterInfo.ToNumber | src/gfx/adapter_info.js:66 | unary `+` of a value: `undefined` and objects NaN, `null` 0, booleans 1 and 0, numbers themselves, strings by `StringToNumber` |
| AdapterInfo.NumeralToNumber | src/gfx/adapter_info.js:66 | unary `+` on the decimal numeral of a natural number gives that number back |
| AdapterInfo.BlankToNumber | src/gfx/adapter_info.js:66 | unary `+` on an empty or all-white-space string gives 0, which `Number.isFinite` accepts |
| AdapterInfo.SignToNumber | src/gfx/adapter_info.js:66 | unary `+` on a bare sign gives NaN, so such a limit is dropped |
| AdapterInfo.SignedToNumber | src/gfx/adapter_info.js:66 | a leading `-` negates the converted rest and a leading `+` leaves it as it is |
| AdapterInfo.StringsOfCount | src/gfx/adapter_info.js:51-57 | the kept features are exactly the string values, each kept as many times as it occurs |
| AdapterInfo.Put | src/gfx/adapter_info.js:66 | `lim[k] = v` keeps an existing key in its place with the new value, and appends a new key last |
| AdapterInfo.PutLookup | src/gfx/adapter_info.js:66 | after `lim[k] = v`, `k` reads `v` and every other key reads its old value |
| AdapterInfo.PutDistinct | src/gfx/adapter_info.js:61-66 | the record never holds a key twice |
| AdapterInfo.Kept | src/gfx/adapter_info.js:61-67 | the record the `entries()` loop builds: each entry with a string key and a finite converted value is stored in turn, a later one overwriting |
| AdapterInfo.LastKeptMeaning | src/gfx/adapter_info.js:65-67 | the search from the end finds nothing iff no entry has that string key with a finite value; otherwise it finds the last such entry |
| AdapterInfo.KeptLookup | src/gfx/adapter_info.js:65-67 | each key of the record the loop builds holds the value of the last entry that stores it |
| AdapterInfo.KeptDistinct | src/gfx/adapter_info.js:61-67 | the record the loop builds has distinct keys |
| AdapterInfo.LimitsKept | src/gfx/adapter_info.js:60-74 | the kept limits have distinct keys; a key is present iff some entry gives it a string key and a finite `+v`, and then it holds the last such value |
| AdapterInfo.NormalizeFeaturesAndLimits | src/gfx/adapter_info.js:48-76 | the features are the string values, sorted, each with its multiplicity (none when not iterable); the limits are the kept record |
| AdapterInfo.FindGpu | src/gfx/adapter_info.js:96-97 | `(env && env.gpu) \|\| navigator.gpu`: the environment's root when it is truthy, else the navigator's |
| AdapterInfo.Available | src/gfx/adapter_info.js:99 | the root found has a `requestAdapter` function; a truthy `env.gpu` without one is not replaced by `navigator.gpu` |
| AdapterInfo.AdapterName | src/gfx/adapter_info.js:106-116 | the name is the resolved description when that is a non-empty string, and otherwise `Unknown GPU`; a missing or throwing `requestAdapterInfo` gives the fallback |
| AdapterInfo.GetAdapterInfo | src/gfx/adapter_info.js:95-130 | fails with "not available" iff the GPU root looked at first has no `requestAdapter`; otherwise returns that name, sorted features and distinct-key limits of the adapter (or of nothing) |
| AdapterInfo.SummarizeAdapterInfo | src/gfx/adapter_info.js:142-155 | the name, ` — `, the features part (or `(none)`), `; ` and the limits part (or `(none)`) |
| AdapterInfo.SummaryStartsWithName | src/gfx/adapter_info.js:154 | the summary starts with the name followed by ` — ` |
| AdapterInfo.SummaryHasFeature | src/gfx/adapter_info.js:143-146 | every feature occurs in the summary at its place in the `, `-joined list after `features: ` |
| AdapterInfo.SummaryHasLimit | src/gfx/adapter_info.js:148-152 | every limit occurs as `k: v` at its place in the `, `-joined list after `limits: ` |
| AdapterInfo.SummaryNone | src/gfx/adapter_info.js:146 | no features and no limits read `features: (none); limits: (none)` |
| AdapterInfo.SummaryOne | src/gfx/adapter_info.js:138-140 | one feature and one limit give `name — features: f; limits: k: v` |
| Hud.ReplaceAll | src/gfx/hud.js:40-44 | `replaceAll` of one character: every occurrence replaced, left to right; text without the character is unchanged |
| Hud.ReplaceAllConcat | src/gfx/hud.js:40-44 | `replaceAll` of one character distributes over concatenation |
| Hud.EscapeHtml | src/gfx/hud.js:38-45 | `escapeHtml(s)`: the five `replaceAll` calls in the source's order, `&` first; text holding none of the five characters comes back unchanged |
| Hud.EscapeHtmlChar | src/gfx/hud.js:38-45 | one character escapes to its own entity: no later replacement alters an entity put in by an earlier one |
| Hud.EscapeHtmlPerChar | src/gfx/hud.js:38-45 | the chain of five replacements equals escaping each character on its own, so `&` is never escaped twice |
| Hud.EscapeHtmlConcat | src/gfx/hud.js:38-45 | escaping distributes over concatenation |
| Hud.UnescapeEscapeHtml | src/gfx/hud.js:38-45 | escaping loses nothing: reading the five entities back gives the original text |
| Hud.EscapeHtmlNoMarkup | src/gfx/hud.js:38-45 | escaped text holds no `<`, `>`, `"` or `'` |
| Hud.HudHtml | src/gfx/hud.js:11-36 | `hudHtml(info)`: the panel template filled with the shown name, feature list and limit table, then trimmed; the result starts with `<` and ends with `>` |
| Hud.HudHtmlIsPanel | src/gfx/hud.js:26-35 | `.trim()` drops only the template's leading newline |
| Hud.PanelEnds | src/gfx/hud.js:26-35 | the panel starts with `<` and ends with `>` |
| Hud.HudFeaturesSorted | src/gfx/hud.js:13 | the features shown are sorted and are exactly the Set's members; anything but a Set shows none |
| Hud.HudFeatureOrderFree | src/gfx/hud.js:13 | the order in which a Set was filled does not change the panel |
| Hud.HudHtmlShows | src/gfx/hud.js:11-36 | the panel depends only on the name, the features and the limits it shows |
| Hud.HudDefaults | src/gfx/hud.js:12-14 | a missing info or a `null`/`undefined` name shows `Unknown GPU`, and an empty name stays empty; a missing info or a non-Set shows no features; a missing info or a non-object shows no limits |
| Hud.FeaturesHtmlTags | src/gfx/hud.js:16-18 | the features section holds 2 tags plus 2 per feature, whatever the feature names |
| Hud.LimitsHtmlTags | src/gfx/hud.js:20-24 | the limits section holds 2 tags plus 6 per limit, whatever the keys |
| Hud.HudMarkupCount | src/gfx/hud.js:11-36 | the panel holds exactly 18 + 2·features + 6·limits tags: names and keys inject no markup |
| Hud.PanelOfShows | src/gfx/hud.js:26-35 | the escaped name element and both sections occur in the template |
| Hud.FeatureItemsShow | src/gfx/hud.js:17 | every feature's escaped `<li>` occurs in the list |
| Hud.LimitRowsShow | src/gfx/hud.js:21-23 | every limit's row, with its key escaped, occurs in the table |
| Hud.HudShows | src/gfx/hud.js:11-36 | the panel shows the escaped name, every feature's escaped item and every limit's row, and the `(none)` placeholder for an empty section |
| Smoke.PadEnd | tools/smoke_headless.js:65 | the result has length `max(|s|, n)`, starts with `s` and is padded with spaces |
| Smoke.StripDotSlash | tools/smoke_headless.js:178 | exactly one leading `./` is removed, when there is one |
| Smoke.NormalizeDemo | tools/smoke_headless.js:177-182 | the path loses a leading `./` (a falsy path becomes empty); array backends are lower-cased one for one, and otherwise become `webgpu`, `webgl2` |
| Smoke.NormalizedBackendsLower | tools/smoke_headless.js:180 | a normalised backend holds no upper-case ASCII letter |
| Smoke.BuildUrls | tools/smoke_headless.js:210-223 | the loop builds the cases of every entry, entry after entry and backend after backend |
| Smoke.Cases | tools/smoke_headless.js:213-221 | the cases of the entries in order, each entry's backends in order |
| Smoke.CasesLength | tools/smoke_headless.js:213-221 | there is one case per entry and backend, empty backend lists counting as two |
| Smoke.CasesOrder | tools/smoke_headless.js:213-221 | the case at position `count(before i) + j` is built from entry `i` and its `j`-th backend |
| Smoke.Url | tools/smoke_headless.js:211-218 | `http://<host>:<port>/public/<path><sep>backend=<be>&expect=<be>&headless=1`, `sep` being `&` when the path has a `?` |
| Smoke.UrlHasQuery | tools/smoke_headless.js:217-218 | every URL has a `?`: the path's own, or the one added |
| Smoke.Label | tools/smoke_headless.js:219 | the label `<be> · <path>` |
| Smoke.UrlParts | tools/smoke_headless.js:211-218 | the URL is the host, the port, `/public/`, the path, the separator and the query, in that order |
| Smoke.IndexOf | tools/smoke_headless.js:159 | the first position of a character, or none iff it does not occur |
| Smoke.FindStatus | tools/smoke_headless.js:159 | the status-element match tried at each position of the DOM from the left |
| Smoke.FindStatusNone | tools/smoke_headless.js:159-160 | the status search finds nothing iff no position of the DOM matches the pattern |
| Smoke.FindStatusLeftmost | tools/smoke_headless.js:159 | what the search finds is the match at the leftmost matching position |
| Smoke.FindCounts | tools/smoke_headless.js:162 | the `PASS n / FAIL m` match tried at each position of the status text from the left |
| Smoke.VerdictOf | tools/smoke_headless.js:159-165 | `ok` iff no failures and at least one pass; no status element, or no counts in it, gives `pass 0, fail 1` |
| Smoke.CountsOfStatus | tools/smoke_headless.js:162-164 | the counts regex reads back the counts of `PASS p / FAIL f` |
| Smoke.ElementTextAtOf | tools/smoke_headless.js:159 | the element text is read up to the first `<` after the attribute's `>` |
| Smoke.StatusText | public/lib/testkit.js:83 | the status text a page writes without a label: `PASS <pass> / FAIL <fail>` |
| Smoke.VerdictOfStatus | tools/smoke_headless.js:159-165 | a DOM whose status element shows `PASS p / FAIL f` gives the verdict `(f == 0 && p > 0, p, f)` |
| Smoke.LongestLabel | tools/smoke_headless.js:266 | the fold yields the longest label length, or 0 for no cases |
| Smoke.LabelWidth | tools/smoke_headless.js:264-267 | the width is at most 80 and at least every label length capped at 80 |
| Smoke.PaddedLabelsAligned | tools/smoke_headless.js:264-267 | labels up to 80 characters long are all padded to the same width |

## Left out

- Numbers are exact reals: floating-point rounding is not modelled. Texture sizes, bytes per row and clear colours are treated as exact values.
- Strings are sequences of code points. JavaScript's UTF-16 code units, and the sort order they give outside the Basic Multilingual Plane, are not modelled.
- `toLowerCase` and the case-insensitive `/i` match are modelled on ASCII letters only.
- `String(v)` of a limit is modelled for integer values only. The HUD and the summary take integer limits; fractional limit values are not rendered.
- Unary `+` on strings covers white space, an optional sign, `Infinity` and decimal numerals with an optional fraction. Exponents, hexadecimal, octal and binary literals, and the sign of `-0` are not modelled. Objects convert to NaN: a custom `valueOf` or `toString` is not modelled.
- Object key order is insertion order. The ordering JavaScript gives integer-like keys, and the special `__proto__` key, are not modelled.
- `String(d.path)` and `String(b)` of non-string manifest values are not modelled: paths and backends are strings or absent.
- Non-string HUD names (`String(name)` of a number or an object) are not modelled; a `Map` given as HUD limits is not modelled either.
- The two regular expressions of the smoke runner are modelled as hand-written matchers for those patterns only. `parseInt` of very long digit runs is exact here and does not lose precision.
- Smoke.VerdictOfStatus: covers a status element whose text is exactly `PASS p / FAIL f`. A text with a label before it (`label · PASS p / FAIL f`) is handled by the same search but not covered by this lemma.
- The awaited results of `requestAdapter` and `requestAdapterInfo` are parameters of `AdapterInfo.GetAdapterInfo`. Promises and the event loop are left out.
- I/O is left out: the smoke runner's HTTP server, Chrome discovery and spawning, the directory crawl, console output and process exit, and the coverage tool's file reading and aggregation.
- Views of the slab allocator are identified by an explicit id, not by `WeakSet` object identity.
- Allocator.SlabAllocator.Alloc: `count` is an integer. A fractional count (`alloc(1.5)`) is not modelled: there the free list and `used` take fractional values, the view's length is the truncated count, and for a wider element type a later `alloc` can throw a `RangeError` from the typed-array constructor after it has already changed the free list. `alloc(NaN)` is not modelled either: it passes the `count <= 0` guard, fits no block and fails with `Out of memory`.
- Allocator.SlabAllocator.Create: `totalBytes` is a natural number. A negative multiple of the element size passes the alignment check and then makes `new ArrayBuffer` throw a `RangeError`; that case is not modelled.
- Inputs of a shape the model's types cannot hold are not modelled: a truthy feature list that is neither an array nor a `Set` (it throws a `TypeError` at `features.has`), a `mips` option other than a boolean (the model keeps only its truthiness), and a `null` options object given to `new HandlePool` (it throws a `TypeError` reading `capacity`).
- Handles.HandlePool: distinct handles for one slot are proved only until its generation wraps around after `2^genBits` recycles.
- Handles.HandlePool.Get: its own contract states only the type-error case. What it returns for every other input is stated by `LiveHandleResolves` and `GetOkIsCurrent`.
- The WebGPU device, queue, encoder and canvas context, and the WebGL2 context, are call logs. Real GPU behaviour is not modelled.
- The frame loop, clocks, vector/matrix/quaternion numerics, the camera, colour functions, shader and pipeline descriptor constants, image loading and the demo and DOM scripts are not part of this model.
