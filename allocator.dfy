/**
 * A slab allocator over one fixed byte buffer.  Free space is a list of
 * `{offset, size}` byte blocks kept sorted by offset; `Alloc` is first-fit and
 * carves from the front of the chosen block; `Free` inserts the block back in
 * sorted position and merges it with the neighbours it touches.
 *
 * Typed-array views are modelled by value: a view records the buffer it was
 * made over (a reference, so "same buffer" is reference equality), its byte
 * range, and an identity `id` drawn from a counter; the allocator's set of
 * live views plays the part of the source's identity-keyed weak set.
 */
module Allocator {
  import opened Wrappers
  import opened Bits

  /** The typed-array constructors a slab can be specialised to. */
  datatype ElementType =
    | Int8 | Uint8 | Uint8Clamped | Int16 | Uint16 | Int32 | Uint32
    | Float32 | Float64 | BigInt64 | BigUint64

  /** The element sizes typed arrays come in. */
  predicate Stride(m: nat) { m == 1 || m == 2 || m == 4 || m == 8 }

  /** `ArrayType.BYTES_PER_ELEMENT`. */
  function BytesPerElement(t: ElementType): (n: nat)
    ensures Stride(n)
  {
    match t
    case Int8 | Uint8 | Uint8Clamped => 1
    case Int16 | Uint16 => 2
    case Int32 | Uint32 | Float32 => 4
    case Float64 | BigInt64 | BigUint64 => 8
  }

  lemma StrideAdd(a: nat, b: nat, m: nat)
    requires Stride(m) && a % m == 0 && b % m == 0
    ensures (a + b) % m == 0
    ensures b <= a ==> (a - b) % m == 0
  {
    var qa, qb := a / m, b / m;
    assert a == qa * m && b == qb * m;
    DivModUnique(a + b, m, qa + qb, 0);
    if b <= a {
      DivModUnique(a - b, m, qa - qb, 0);
    }
  }

  lemma StrideMul(q: nat, m: nat)
    requires Stride(m)
    ensures (q * m) % m == 0
  {
    DivModUnique(q * m, m, q, 0);
  }

  /** A free block of `size` bytes starting at byte `offset`. */
  datatype Block = Block(offset: nat, size: nat)

  function End(b: Block): nat { b.offset + b.size }

  predicate Holds(b: Block, x: int) { b.offset <= x < b.offset + b.size }

  /** A typed-array view handed out by `Alloc`. */
  datatype View = View(buffer: array<bv8>, id: nat, byteOffset: nat, byteLength: nat)

  predicate InView(v: View, x: int) { v.byteOffset <= x < v.byteOffset + v.byteLength }

  /** The bytes of a view, as a block. */
  function Span(v: View): Block { Block(v.byteOffset, v.byteLength) }

  datatype AllocError = InvalidCount | OutOfMemory
  datatype FreeError = ForeignBuffer | DoubleFree
  datatype ConstructError = Misaligned

  /** Byte `x` lies in some block of `f`. */
  predicate InFree(f: seq<Block>, x: int)
    decreases |f|
  {
    |f| > 0 && (Holds(f[0], x) || InFree(f[1..], x))
  }

  /** The `reduce` behind `freeBytes()`: the total size of the blocks. */
  function SumSizes(f: seq<Block>): nat
    decreases |f|
  {
    if f == [] then 0 else f[0].size + SumSizes(f[1..])
  }

  /** A block that can appear in the free list of a slab of `total` bytes and stride `bpe`. */
  predicate BlockOk(b: Block, total: nat, bpe: nat)
  {
    Stride(bpe) && 0 < b.size && End(b) <= total && b.offset % bpe == 0 && b.size % bpe == 0
  }

  predicate AllOk(f: seq<Block>, total: nat, bpe: nat)
  {
    forall k | 0 <= k < |f| :: BlockOk(f[k], total, bpe)
  }

  /** Sorted by offset and pairwise disjoint. */
  predicate WeakSorted(f: seq<Block>)
  {
    forall p, q | 0 <= p < q < |f| :: End(f[p]) <= f[q].offset
  }

  /**
   * Every block ends at or before the next one starts, with a gap after each
   * block except possibly blocks `a` and `b`: the shape of the free list
   * while it is being coalesced.
   */
  predicate Chained(f: seq<Block>, a: int, b: int)
  {
    && (forall k | 0 <= k < |f| - 1 :: End(f[k]) <= f[k + 1].offset)
    && (forall k | 0 <= k < |f| - 1 && k != a && k != b :: End(f[k]) < f[k + 1].offset)
  }

  /**
   * The shape the free list keeps between calls: every block well formed, and
   * blocks sorted by offset with a gap between any two (disjoint and never adjacent).
   */
  predicate Canonical(f: seq<Block>, total: nat, bpe: nat)
  {
    AllOk(f, total, bpe) && forall p, q | 0 <= p < q < |f| :: End(f[p]) < f[q].offset
  }

  /**
   * First fit: the lowest index of a block of at least `need` bytes, if any.
   */
  function FirstFit(f: seq<Block>, need: nat): (r: Option<nat>)
    ensures r.Some? ==> r.value < |f| && f[r.value].size >= need
    ensures r.Some? ==> forall k | 0 <= k < r.value :: f[k].size < need
    ensures r.None? ==> forall k | 0 <= k < |f| :: f[k].size < need
    decreases |f|
  {
    if f == [] then None
    else if f[0].size >= need then Some(0)
    else match FirstFit(f[1..], need)
      case None => None
      case Some(i) => Some(i + 1)
  }

  /** The free list after `need` bytes are taken from the front of block `i`. */
  function Carve(f: seq<Block>, i: nat, need: nat): seq<Block>
    requires i < |f| && need <= f[i].size
  {
    if f[i].size == need then f[..i] + f[i + 1..]
    else f[i := Block(f[i].offset + need, f[i].size - need)]
  }

  /** The free list with block `b` inserted at position `i`. */
  function Insert(f: seq<Block>, i: nat, b: Block): seq<Block>
    requires i <= |f|
  {
    f[..i] + [b] + f[i..]
  }

  /** The free list with blocks `j` and `j + 1` merged into one. */
  function Merge(f: seq<Block>, j: nat): seq<Block>
    requires j + 1 < |f|
  {
    f[..j] + [Block(f[j].offset, f[j].size + f[j + 1].size)] + f[j + 2..]
  }

  // ---------------------------------------------------------------------------
  // Lemmas about free lists
  // ---------------------------------------------------------------------------

  lemma {:induction false} InFreeConcat(a: seq<Block>, c: seq<Block>, x: int)
    ensures InFree(a + c, x) <==> InFree(a, x) || InFree(c, x)
    decreases |a|
  {
    if a == [] {
      assert a + c == c;
    } else {
      assert (a + c)[0] == a[0];
      assert (a + c)[1..] == a[1..] + c;
      InFreeConcat(a[1..], c, x);
    }
  }

  lemma InFreeSingle(b: Block, x: int)
    ensures InFree([b], x) <==> Holds(b, x)
  {
    assert [b][1..] == [];
  }

  lemma {:induction false} InFreeAt(f: seq<Block>, x: int)
    ensures InFree(f, x) <==> exists k :: 0 <= k < |f| && Holds(f[k], x)
    decreases |f|
  {
    if f != [] {
      InFreeAt(f[1..], x);
      if InFree(f[1..], x) {
        var k :| 0 <= k < |f[1..]| && Holds(f[1..][k], x);
        assert Holds(f[k + 1], x);
      }
      if exists k :: 0 <= k < |f| && Holds(f[k], x) {
        var k :| 0 <= k < |f| && Holds(f[k], x);
        if k > 0 { assert Holds(f[1..][k - 1], x); }
      }
    }
  }

  /** The bytes of a list, split around position `i`. */
  lemma SplitAt(f: seq<Block>, i: nat, x: int)
    requires i < |f|
    ensures InFree(f, x) <==> InFree(f[..i], x) || Holds(f[i], x) || InFree(f[i + 1..], x)
  {
    assert f == f[..i] + [f[i]] + f[i + 1..];
    InFreeConcat(f[..i] + [f[i]], f[i + 1..], x);
    InFreeConcat(f[..i], [f[i]], x);
    InFreeSingle(f[i], x);
  }

  lemma {:induction false} SumConcat(a: seq<Block>, c: seq<Block>)
    ensures SumSizes(a + c) == SumSizes(a) + SumSizes(c)
    decreases |a|
  {
    if a == [] {
      assert a + c == c;
    } else {
      assert (a + c)[1..] == a[1..] + c;
      SumConcat(a[1..], c);
    }
  }

  lemma SumSingle(b: Block)
    ensures SumSizes([b]) == b.size
  {
    assert [b][1..] == [];
  }

  lemma SumSplit(f: seq<Block>, i: nat)
    requires i < |f|
    ensures SumSizes(f) == SumSizes(f[..i]) + f[i].size + SumSizes(f[i + 1..])
  {
    var a, b, c := f[..i], [f[i]], f[i + 1..];
    assert f == a + b + c;
    SumConcat(a + b, c);
    SumConcat(a, b);
    SumSingle(f[i]);
  }

  /** Weakly sorted blocks inside `[lo, hi)` hold at most `hi - lo` bytes. */
  lemma {:induction false} SumBound(f: seq<Block>, lo: int, hi: int)
    requires lo <= hi
    requires forall k | 0 <= k < |f| :: lo <= f[k].offset && End(f[k]) <= hi
    requires WeakSorted(f)
    ensures SumSizes(f) <= hi - lo
    decreases |f|
  {
    if f != [] {
      assert WeakSorted(f[1..]) by {
        forall p, q | 0 <= p < q < |f[1..]| ensures End(f[1..][p]) <= f[1..][q].offset {
          assert f[1..][p] == f[p + 1] && f[1..][q] == f[q + 1];
        }
      }
      forall k | 0 <= k < |f[1..]| ensures End(f[0]) <= f[1..][k].offset && End(f[1..][k]) <= hi {
        assert f[1..][k] == f[k + 1];
      }
      SumBound(f[1..], End(f[0]), hi);
    }
  }

  /** A canonical free list holds only bytes of the slab. */
  lemma InFreeBounds(f: seq<Block>, total: nat, bpe: nat, x: int)
    requires Canonical(f, total, bpe)
    requires InFree(f, x)
    ensures 0 <= x < total
  {
    InFreeAt(f, x);
  }

  /** A byte of block `k` of a canonical list lies in no other block. */
  lemma CanonicalBlockOf(f: seq<Block>, total: nat, bpe: nat, k: nat, x: int)
    requires Canonical(f, total, bpe) && k < |f| && Holds(f[k], x)
    ensures !InFree(f[..k], x) && !InFree(f[k + 1..], x)
  {
    forall m | 0 <= m < k ensures !Holds(f[..k][m], x) {
      assert End(f[m]) < f[k].offset;
    }
    forall m | k < m < |f| ensures !Holds(f[m], x) {
      assert End(f[k]) < f[m].offset;
    }
    InFreeAt(f[..k], x);
    InFreeAt(f[k + 1..], x);
  }

  /** Carving from the front of block `i` removes exactly the carved bytes. */
  lemma CarveBytes(f: seq<Block>, total: nat, bpe: nat, i: nat, need: nat, x: int)
    requires Canonical(f, total, bpe) && i < |f| && 0 < need <= f[i].size
    ensures InFree(Carve(f, i, need), x) <==> InFree(f, x) && !(f[i].offset <= x < f[i].offset + need)
  {
    SplitAt(f, i, x);
    var g := Carve(f, i, need);
    if f[i].size == need {
      InFreeConcat(f[..i], f[i + 1..], x);
    } else {
      assert g[..i] == f[..i] && g[i + 1..] == f[i + 1..];
      SplitAt(g, i, x);
    }
    if Holds(f[i], x) {
      CanonicalBlockOf(f, total, bpe, i, x);
    }
  }

  lemma CarveSum(f: seq<Block>, i: nat, need: nat)
    requires i < |f| && need <= f[i].size
    ensures SumSizes(Carve(f, i, need)) + need == SumSizes(f)
  {
    var g := Carve(f, i, need);
    SumSplit(f, i);
    if f[i].size == need {
      SumConcat(f[..i], f[i + 1..]);
    } else {
      assert g[..i] == f[..i] && g[i + 1..] == f[i + 1..];
      SumSplit(g, i);
    }
  }

  lemma CarveCanonical(f: seq<Block>, total: nat, bpe: nat, i: nat, need: nat)
    requires Canonical(f, total, bpe) && i < |f| && 0 < need <= f[i].size && need % bpe == 0
    ensures Canonical(Carve(f, i, need), total, bpe)
  {
    var g := Carve(f, i, need);
    if f[i].size == need {
      assert forall k | 0 <= k < |g| :: g[k] == f[if k < i then k else k + 1];
      forall p, q | 0 <= p < q < |g| ensures End(g[p]) < g[q].offset {
        var p' := if p < i then p else p + 1;
        var q' := if q < i then q else q + 1;
        assert g[p] == f[p'] && g[q] == f[q'];
      }
    } else {
      var nb := Block(f[i].offset + need, f[i].size - need);
      StrideAdd(f[i].offset, need, bpe);
      StrideAdd(f[i].size, need, bpe);
      assert BlockOk(nb, total, bpe);
      forall p, q | 0 <= p < q < |g| ensures End(g[p]) < g[q].offset {
        assert End(f[p]) < f[q].offset;
      }
    }
  }

  /** The neighbours of a block disjoint from a canonical list lie wholly before or after it. */
  lemma InsertPlacement(f: seq<Block>, total: nat, bpe: nat, i: nat, nb: Block)
    requires Canonical(f, total, bpe) && 0 < nb.size
    requires i <= |f| && (forall k | 0 <= k < i :: f[k].offset < nb.offset)
    requires i < |f| ==> nb.offset <= f[i].offset
    requires forall x | Holds(nb, x) :: !InFree(f, x)
    ensures forall k | 0 <= k < i :: End(f[k]) <= nb.offset
    ensures forall k | i <= k < |f| :: End(nb) <= f[k].offset
  {
    forall k | 0 <= k < |f| ensures End(f[k]) <= nb.offset || End(nb) <= f[k].offset {
      var y := if f[k].offset < nb.offset then nb.offset else f[k].offset;
      if y < End(f[k]) && y < End(nb) {
        assert Holds(f[k], y) && Holds(nb, y);
        InFreeAt(f, y);
      }
    }
    forall k | i <= k < |f| ensures nb.offset <= f[k].offset {
      if k > i { assert End(f[i]) < f[k].offset; }
    }
  }

  /** Blocks of a chained list with positive sizes are ordered, strictly unless they are the excepted neighbours. */
  lemma {:induction false} ChainFrom(f: seq<Block>, total: nat, bpe: nat, a: int, b: int, p: nat, q: nat)
    requires AllOk(f, total, bpe) && Chained(f, a, b) && p < q < |f|
    ensures End(f[p]) <= f[q].offset
    ensures q > p + 1 || (p != a && p != b) ==> End(f[p]) < f[q].offset
    decreases q - p
  {
    if q > p + 1 {
      ChainFrom(f, total, bpe, a, b, p, q - 1);
      assert BlockOk(f[q - 1], total, bpe);
    }
  }

  lemma ChainSorted(f: seq<Block>, total: nat, bpe: nat, a: int, b: int)
    requires AllOk(f, total, bpe) && Chained(f, a, b)
    ensures WeakSorted(f)
  {
    forall p, q | 0 <= p < q < |f| ensures End(f[p]) <= f[q].offset {
      ChainFrom(f, total, bpe, a, b, p, q);
    }
  }

  /** A chained list whose excepted neighbours lie past its end is canonical. */
  lemma ChainCanonical(f: seq<Block>, total: nat, bpe: nat, a: int, b: int)
    requires AllOk(f, total, bpe) && Chained(f, a, b) && |f| <= a + 1 && |f| <= b + 1
    ensures Canonical(f, total, bpe)
  {
    forall p, q | 0 <= p < q < |f| ensures End(f[p]) < f[q].offset {
      ChainFrom(f, total, bpe, a, b, p, q);
    }
  }

  /** Inserting a block between its neighbours leaves a list that needs coalescing only around it. */
  lemma InsertShape(f: seq<Block>, total: nat, bpe: nat, i: nat, nb: Block)
    requires Canonical(f, total, bpe) && BlockOk(nb, total, bpe) && i <= |f|
    requires i > 0 ==> End(f[i - 1]) <= nb.offset
    requires i < |f| ==> End(nb) <= f[i].offset
    ensures AllOk(Insert(f, i, nb), total, bpe)
    ensures Chained(Insert(f, i, nb), i - 1, i)
  {
    InsertAllOk(f, total, bpe, i, nb);
    InsertChained(f, total, bpe, i, nb);
  }

  lemma InsertAllOk(f: seq<Block>, total: nat, bpe: nat, i: nat, nb: Block)
    requires AllOk(f, total, bpe) && BlockOk(nb, total, bpe) && i <= |f|
    ensures AllOk(Insert(f, i, nb), total, bpe)
  {
    var g := Insert(f, i, nb);
    forall k | 0 <= k < |g| ensures BlockOk(g[k], total, bpe) {
      if k < i {
        assert g[k] == f[k];
      } else if k > i {
        assert g[k] == f[k - 1];
      }
    }
  }

  lemma InsertChained(f: seq<Block>, total: nat, bpe: nat, i: nat, nb: Block)
    requires Canonical(f, total, bpe) && i <= |f|
    requires i > 0 ==> End(f[i - 1]) <= nb.offset
    requires i < |f| ==> End(nb) <= f[i].offset
    ensures Chained(Insert(f, i, nb), i - 1, i)
  {
    var g := Insert(f, i, nb);
    assert forall k | 0 <= k < i :: g[k] == f[k];
    assert g[i] == nb;
    assert forall k | i < k < |g| :: g[k] == f[k - 1];
    forall k | 0 <= k < |g| - 1
      ensures End(g[k]) <= g[k + 1].offset
      ensures k != i - 1 && k != i ==> End(g[k]) < g[k + 1].offset
    {
      if k < i - 1 {
        assert End(f[k]) < f[k + 1].offset;
      } else if k > i {
        assert End(f[k - 1]) < f[k].offset;
      }
    }
  }

  lemma InsertBytes(f: seq<Block>, i: nat, nb: Block, x: int)
    requires i <= |f|
    ensures InFree(Insert(f, i, nb), x) <==> InFree(f, x) || Holds(nb, x)
  {
    InFreeConcat(f[..i] + [nb], f[i..], x);
    InFreeConcat(f[..i], [nb], x);
    InFreeConcat(f[..i], f[i..], x);
    InFreeSingle(nb, x);
    assert f == f[..i] + f[i..];
  }

  lemma InsertSum(f: seq<Block>, i: nat, nb: Block)
    requires i <= |f|
    ensures SumSizes(Insert(f, i, nb)) == SumSizes(f) + nb.size
  {
    var g := Insert(f, i, nb);
    assert g[..i] == f[..i] && g[i] == nb && g[i + 1..] == f[i..];
    SumSplit(g, i);
    SumConcat(f[..i], f[i..]);
    assert f == f[..i] + f[i..];
  }

  /** Merging two touching neighbours keeps the shape of a list being coalesced at `j`. */
  lemma MergeShape(f: seq<Block>, total: nat, bpe: nat, j: nat)
    requires AllOk(f, total, bpe) && Chained(f, j, j + 1)
    requires j + 1 < |f| && End(f[j]) == f[j + 1].offset
    ensures AllOk(Merge(f, j), total, bpe)
    ensures Chained(Merge(f, j), j, j + 1)
  {
    var g := Merge(f, j);
    var m := Block(f[j].offset, f[j].size + f[j + 1].size);
    assert |g| == |f| - 1;
    assert forall k | 0 <= k < j :: g[k] == f[k];
    assert g[j] == m;
    assert forall k | j < k < |g| :: g[k] == f[k + 1];
    assert BlockOk(f[j], total, bpe) && BlockOk(f[j + 1], total, bpe);
    StrideAdd(f[j].size, f[j + 1].size, bpe);
    assert BlockOk(m, total, bpe);
    forall k | 0 <= k < |g| - 1
      ensures End(g[k]) <= g[k + 1].offset
      ensures k != j && k != j + 1 ==> End(g[k]) < g[k + 1].offset
    {
      if k < j - 1 {
        assert End(f[k]) < f[k + 1].offset;
      } else if k == j - 1 {
        assert End(f[k]) < f[j].offset;
      } else if k == j {
        assert End(f[j + 1]) <= f[j + 2].offset;
      } else {
        assert End(f[k + 1]) < f[k + 2].offset;
      }
    }
  }

  lemma MergeBytes(f: seq<Block>, j: nat, x: int)
    requires j + 1 < |f| && End(f[j]) == f[j + 1].offset
    ensures InFree(Merge(f, j), x) <==> InFree(f, x)
  {
    var g := Merge(f, j);
    var m := Block(f[j].offset, f[j].size + f[j + 1].size);
    assert g[..j] == f[..j] && g[j] == m && g[j + 1..] == f[j + 2..];
    SplitAt(g, j, x);
    SplitAt(f, j, x);
    SplitAt(f[j + 1..], 0, x);
    assert f[j + 1..][..0] == [] && f[j + 1..][0] == f[j + 1] && f[j + 1..][1..] == f[j + 2..];
  }

  lemma MergeSum(f: seq<Block>, j: nat)
    requires j + 1 < |f|
    ensures SumSizes(Merge(f, j)) == SumSizes(f)
  {
    var g := Merge(f, j);
    assert g[..j] == f[..j] && g[j + 1..] == f[j + 2..];
    SumSplit(g, j);
    SumSplit(f, j);
    SumSplit(f[j + 1..], 0);
    assert f[j + 1..][..0] == [] && f[j + 1..][0] == f[j + 1] && f[j + 1..][1..] == f[j + 2..];
  }

  /** Two neighbours with a gap between them let coalescing move on. */
  lemma SkipShape(f: seq<Block>, j: nat)
    requires Chained(f, j, j + 1)
    requires j + 1 < |f| && End(f[j]) != f[j + 1].offset
    ensures Chained(f, j + 1, j + 2)
  {
  }

  /**
   * The state of the coalescing loop: position `j` in a well-formed chained
   * list that holds the same bytes, and as many of them, as the list `f0` it started from.
   */
  ghost predicate CoalesceInv(f: seq<Block>, f0: seq<Block>, j: int, total: nat, bpe: nat)
  {
    && 0 <= j < |f| && AllOk(f, total, bpe) && Chained(f, j, j + 1)
    && (forall x :: InFree(f, x) <==> InFree(f0, x))
    && SumSizes(f) == SumSizes(f0)
  }

  lemma MergeStep(f: seq<Block>, f0: seq<Block>, j: nat, total: nat, bpe: nat)
    requires CoalesceInv(f, f0, j, total, bpe) && j + 1 < |f| && End(f[j]) == f[j + 1].offset
    ensures CoalesceInv(Merge(f, j), f0, j, total, bpe)
  {
    MergeShape(f, total, bpe, j);
    MergeSum(f, j);
    forall x ensures InFree(Merge(f, j), x) <==> InFree(f, x) {
      MergeBytes(f, j, x);
    }
  }

  lemma SkipStep(f: seq<Block>, f0: seq<Block>, j: nat, total: nat, bpe: nat)
    requires CoalesceInv(f, f0, j, total, bpe) && j + 1 < |f| && End(f[j]) != f[j + 1].offset
    ensures CoalesceInv(f, f0, j + 1, total, bpe)
  {
    SkipShape(f, j);
  }

  lemma CoalesceDone(f: seq<Block>, f0: seq<Block>, j: nat, total: nat, bpe: nat)
    requires CoalesceInv(f, f0, j, total, bpe) && j >= |f| - 1
    ensures Canonical(f, total, bpe)
  {
    ChainCanonical(f, total, bpe, j, j + 1);
  }

  /**
   * Two canonical free lists that hold the same bytes are the same list: the
   * free list is a function of the set of free bytes, whatever sequence of
   * calls produced it.
   */
  lemma {:induction false} CanonicalUnique(f: seq<Block>, g: seq<Block>, total: nat, bpe: nat)
    requires Canonical(f, total, bpe) && Canonical(g, total, bpe)
    requires forall x :: InFree(f, x) <==> InFree(g, x)
    ensures f == g
    decreases |f| + |g|
  {
    FirstByte(f, total, bpe);
    FirstByte(g, total, bpe);
    if f != [] && g != [] {
      FirstBlockEqual(f, g, total, bpe);
      forall x ensures InFree(f[1..], x) <==> InFree(g[1..], x) {
        TailBytes(f, total, bpe, x);
        TailBytes(g, total, bpe, x);
      }
      TailCanonical(f, total, bpe);
      TailCanonical(g, total, bpe);
      CanonicalUnique(f[1..], g[1..], total, bpe);
      assert f == [f[0]] + f[1..] && g == [g[0]] + g[1..];
    }
  }

  lemma FirstByte(f: seq<Block>, total: nat, bpe: nat)
    requires AllOk(f, total, bpe)
    ensures f != [] ==> InFree(f, f[0].offset)
  {
    if f != [] { assert BlockOk(f[0], total, bpe); }
  }

  lemma TailCanonical(f: seq<Block>, total: nat, bpe: nat)
    requires Canonical(f, total, bpe) && f != []
    ensures Canonical(f[1..], total, bpe)
  {
    forall p, q | 0 <= p < q < |f[1..]| ensures End(f[1..][p]) < f[1..][q].offset {
      assert f[1..][p] == f[p + 1] && f[1..][q] == f[q + 1];
    }
  }

  /** The bytes of the tail of a canonical list are those past its first block. */
  lemma TailBytes(f: seq<Block>, total: nat, bpe: nat, x: int)
    requires Canonical(f, total, bpe) && f != []
    ensures InFree(f[1..], x) <==> InFree(f, x) && x >= End(f[0])
  {
    forall m | 0 <= m < |f[1..]| ensures Holds(f[1..][m], x) ==> x >= End(f[0]) {
      assert f[1..][m] == f[m + 1];
      assert End(f[0]) < f[m + 1].offset;
    }
    InFreeAt(f[1..], x);
  }

  /** No byte of a canonical list lies below its first block or in the gap after it. */
  lemma FirstBlockGap(f: seq<Block>, total: nat, bpe: nat, x: int)
    requires Canonical(f, total, bpe) && f != []
    requires x < f[0].offset || (End(f[0]) <= x && (|f| == 1 || x < f[1].offset))
    ensures !InFree(f, x)
  {
    forall k | 0 <= k < |f| ensures !Holds(f[k], x) {
      if k > 0 { assert End(f[0]) < f[k].offset; }
      if k > 1 { assert End(f[1]) < f[k].offset; }
    }
    InFreeAt(f, x);
  }

  lemma FirstBlockEqual(f: seq<Block>, g: seq<Block>, total: nat, bpe: nat)
    requires Canonical(f, total, bpe) && Canonical(g, total, bpe) && f != [] && g != []
    requires forall x :: InFree(f, x) <==> InFree(g, x)
    ensures f[0] == g[0]
  {
    assert BlockOk(f[0], total, bpe) && BlockOk(g[0], total, bpe);
    assert InFree(f, f[0].offset) && InFree(g, g[0].offset);
    if f[0].offset < g[0].offset { FirstBlockGap(g, total, bpe, f[0].offset); }
    if g[0].offset < f[0].offset { FirstBlockGap(f, total, bpe, g[0].offset); }
    if End(f[0]) < End(g[0]) {
      assert InFree(g, End(f[0]));
      FirstBlockGap(f, total, bpe, End(f[0]));
    }
    if End(g[0]) < End(f[0]) {
      assert InFree(f, End(g[0]));
      FirstBlockGap(g, total, bpe, End(g[0]));
    }
  }

  /** A canonical list that holds every byte of a non-empty slab is the single whole block. */
  lemma WholeSlab(f: seq<Block>, total: nat, bpe: nat)
    requires total > 0 && Stride(bpe) && total % bpe == 0
    requires Canonical(f, total, bpe)
    requires forall x | 0 <= x < total :: InFree(f, x)
    ensures f == [Block(0, total)]
  {
    var g := [Block(0, total)];
    assert Canonical(g, total, bpe);
    forall x ensures InFree(f, x) <==> InFree(g, x) {
      InFreeSingle(Block(0, total), x);
      if InFree(f, x) { InFreeBounds(f, total, bpe, x); }
    }
    CanonicalUnique(f, g, total, bpe);
  }

  // ---------------------------------------------------------------------------
  // The allocator
  // ---------------------------------------------------------------------------

  class SlabAllocator {
    const buffer: array<bv8>
    const elementType: ElementType
    const bpe: nat
    const totalBytes: nat
    /** Free blocks, sorted by offset. */
    var freeList: seq<Block>
    var used: nat
    /** The views handed out and not yet freed. */
    var live: set<View>
    /** The identity the next view will get. */
    var nextId: nat

    /** A view this allocator may have handed out: its bytes are whole elements of the slab. */
    ghost predicate WellPlaced(v: View)
    {
      && Stride(bpe) && v.buffer == buffer && 0 < v.byteLength
      && v.byteOffset % bpe == 0 && v.byteLength % bpe == 0
      && v.byteOffset + v.byteLength <= totalBytes
    }

    ghost predicate Valid()
      reads this
    {
      && bpe == BytesPerElement(elementType)
      && buffer.Length == totalBytes
      && totalBytes % bpe == 0
      && used + SumSizes(freeList) == totalBytes
      && (forall v | v in live :: WellPlaced(v) && v.id < nextId)
      && (totalBytes == 0 ==> freeList == [Block(0, 0)] && live == {})
      && (totalBytes > 0 ==> Canonical(freeList, totalBytes, bpe))
      // live views never share a byte with each other ...
      && (forall v, w, x | v in live && w in live && v != w && InView(v, x) :: !InView(w, x))
      // ... nor with a free block
      && (forall v, x | v in live && InView(v, x) :: !InFree(freeList, x))
      // and together with the free blocks they cover the whole slab
      && (forall x | 0 <= x < totalBytes :: InFree(freeList, x) || exists v :: v in live && InView(v, x))
    }

    /** The successful construction: the whole slab is one free block and nothing is used. */
    constructor (totalBytes: nat, elementType: ElementType)
      requires totalBytes % BytesPerElement(elementType) == 0
      ensures Valid() && fresh(buffer)
      ensures this.totalBytes == totalBytes && this.elementType == elementType
      ensures freeList == [Block(0, totalBytes)] && used == 0 && live == {}
    {
      this.buffer := new bv8[totalBytes];
      this.elementType := elementType;
      this.bpe := BytesPerElement(elementType);
      this.totalBytes := totalBytes;
      this.freeList := [Block(0, totalBytes)];
      this.used := 0;
      this.live := {};
      this.nextId := 0;
      new;
      assert SumSizes(freeList) == totalBytes by { assert freeList[1..] == []; }
      forall x | 0 <= x < totalBytes ensures InFree(freeList, x) {
        InFreeSingle(Block(0, totalBytes), x);
      }
    }

    /** `new SlabAllocator(totalBytes, ArrayType)`, with its alignment check. */
    static method Create(totalBytes: nat, elementType: ElementType)
      returns (r: Result<SlabAllocator, ConstructError>)
      ensures r.Err? <==> totalBytes % BytesPerElement(elementType) != 0
      ensures r.Ok? ==> fresh(r.value) && r.value.Valid() && r.value.totalBytes == totalBytes
      ensures r.Ok? ==> r.value.elementType == elementType && r.value.bpe == BytesPerElement(elementType)
      ensures r.Ok? ==> r.value.freeList == [Block(0, totalBytes)] && r.value.used == 0 && r.value.live == {}
    {
      if totalBytes % BytesPerElement(elementType) != 0 {
        return Err(Misaligned);
      }
      var a := new SlabAllocator(totalBytes, elementType);
      return Ok(a);
    }

    /** `usedBytes()`. */
    function UsedBytes(): (n: nat)
      reads this
      requires Valid()
      ensures n + FreeBytes() == totalBytes
    {
      used
    }

    /** `freeBytes()`: the sum of the sizes of the free blocks. */
    function FreeBytes(): (n: nat)
      reads this
      requires Valid()
      ensures n + used == totalBytes
    {
      SumSizes(freeList)
    }

    /**
     * `alloc(count)`: first fit of `count * bpe` bytes, carved from the front of
     * the lowest free block that is large enough.
     */
    method Alloc(count: int) returns (r: Result<View, AllocError>)
      requires Valid()
      modifies this
      ensures Valid()
      ensures count <= 0 ==> r == Err(InvalidCount)
      ensures count > 0 && FirstFit(old(freeList), count * bpe).None? ==> r == Err(OutOfMemory)
      ensures r.Ok? <==> count > 0 && FirstFit(old(freeList), count * bpe).Some?
      ensures r.Err? ==> freeList == old(freeList) && used == old(used) && live == old(live)
      ensures r.Ok? ==>
        && count > 0 && FirstFit(old(freeList), count * bpe).Some?
        && var i := FirstFit(old(freeList), count * bpe).value;
        && r.value.buffer == buffer
        && r.value.byteOffset == old(freeList)[i].offset
        && r.value.byteLength == count * bpe
        && freeList == Carve(old(freeList), i, count * bpe)
        && used == old(used) + count * bpe
        && r.value !in old(live) && live == old(live) + {r.value}
      ensures r.Ok? ==> r.value.byteOffset % bpe == 0 && r.value.byteLength % bpe == 0
    {
      if count <= 0 {
        return Err(InvalidCount);
      }
      var need := count * bpe;
      StrideMul(count, bpe);
      var i := 0;
      while i < |freeList|
        invariant 0 <= i <= |freeList|
        invariant forall k | 0 <= k < i :: freeList[k].size < need
      {
        var blk := freeList[i];
        if blk.size >= need {
          ghost var f := freeList;
          var offset := blk.offset;
          freeList := freeList[i := Block(blk.offset + need, blk.size - need)];
          if freeList[i].size == 0 {
            freeList := freeList[..i] + freeList[i + 1..];
          }
          assert freeList == Carve(f, i, need);
          used := used + need;
          var view := View(buffer, nextId, offset, need);
          nextId := nextId + 1;
          live := live + {view};
          AllocKeepsValid(f, i, need, view);
          return Ok(view);
        }
        i := i + 1;
      }
      return Err(OutOfMemory);
    }

    /** The new state after a successful `Alloc` satisfies the invariant. */
    lemma AllocKeepsValid(f: seq<Block>, i: nat, need: nat, view: View)
      requires totalBytes > 0 && bpe == BytesPerElement(elementType) && buffer.Length == totalBytes
      requires totalBytes % bpe == 0 && Canonical(f, totalBytes, bpe)
      requires i < |f| && 0 < need <= f[i].size && need % bpe == 0
      requires view == View(buffer, view.id, f[i].offset, need) && view.id < nextId
      requires freeList == Carve(f, i, need)
      requires used + SumSizes(f) == totalBytes + need
      requires view in live
      requires forall v | v in live - {view} :: WellPlaced(v) && v.id < nextId
      requires forall v, w, x | v in live - {view} && w in live - {view} && v != w && InView(v, x) :: !InView(w, x)
      requires forall v, x | v in live - {view} && InView(v, x) :: !InFree(f, x)
      requires forall x | 0 <= x < totalBytes :: InFree(f, x) || exists v :: v in live - {view} && InView(v, x)
      ensures Valid()
    {
      CarveSum(f, i, need);
      CarveCanonical(f, totalBytes, bpe, i, need);
      assert BlockOk(f[i], totalBytes, bpe);
      assert WellPlaced(view);
      forall x | InView(view, x) ensures InFree(f, x) && !InFree(freeList, x) {
        InFreeAt(f, x);
        CarveBytes(f, totalBytes, bpe, i, need, x);
      }
      forall v, x | v in live && InView(v, x) ensures !InFree(freeList, x) {
        CarveBytes(f, totalBytes, bpe, i, need, x);
      }
      forall x | 0 <= x < totalBytes ensures InFree(freeList, x) || exists v :: v in live && InView(v, x) {
        CarveBytes(f, totalBytes, bpe, i, need, x);
        if InView(view, x) { assert view in live; }
      }
    }

    /**
     * `free(view)`: rejects a view of another buffer and a view that is not
     * live; otherwise gives its bytes back to the free list, which stays
     * sorted and has the freed block merged with the blocks it touches.
     */
    method Free(view: View) returns (r: Outcome<FreeError>)
      requires Valid()
      modifies this
      ensures Valid()
      ensures view.buffer != buffer ==> r == Fail(ForeignBuffer)
      ensures view.buffer == buffer && view !in old(live) ==> r == Fail(DoubleFree)
      ensures r.Fail? ==> freeList == old(freeList) && used == old(used) && live == old(live)
      ensures r.Pass? <==> view.buffer == buffer && view in old(live)
      ensures r.Pass? ==> live == old(live) - {view}
      ensures r.Pass? ==> used == old(used) - view.byteLength
      ensures r.Pass? ==> forall x :: InFree(freeList, x) <==> InFree(old(freeList), x) || InView(view, x)
    {
      if view.buffer != buffer {
        return Fail(ForeignBuffer);
      }
      if view !in live {
        return Fail(DoubleFree);
      }
      ghost var live0 := live;
      ghost var old0 := freeList;
      assert WellPlaced(view);
      var nb := Block(view.byteOffset, view.byteLength);
      assert forall x | Holds(nb, x) :: !InFree(freeList, x) by {
        forall x | Holds(nb, x) ensures !InFree(freeList, x) {
          assert InView(view, x);
        }
      }
      var f := PutBack(freeList, nb, totalBytes, bpe);
      live := live - {view};
      used := used - view.byteLength;
      freeList := f;
      FreeKeepsValid(old0, live0, view);
      return Pass;
    }

    /**
     * The free-list half of `free`: searches the position of the first block
     * at or after the freed one, inserts it there, and coalesces.
     */
    static method PutBack(f0: seq<Block>, nb: Block, total: nat, bpe: nat) returns (f: seq<Block>)
      requires total > 0 && Canonical(f0, total, bpe) && BlockOk(nb, total, bpe)
      requires forall x | Holds(nb, x) :: !InFree(f0, x)
      ensures Canonical(f, total, bpe)
      ensures forall x :: InFree(f, x) <==> InFree(f0, x) || Holds(nb, x)
      ensures SumSizes(f) == SumSizes(f0) + nb.size <= total
    {
      // insert back sorted by offset
      var i := 0;
      while i < |f0| && f0[i].offset < nb.offset
        invariant 0 <= i <= |f0|
        invariant forall k | 0 <= k < i :: f0[k].offset < nb.offset
      {
        i := i + 1;
      }
      InsertFacts(f0, total, bpe, i, nb);
      f := f0[..i] + [nb] + f0[i..];

      // coalesce neighbours
      f := Coalesce(f, if i > 0 then i - 1 else 0, total, bpe);
    }

    /** Facts about the free list right after the freed block is put back at position `i`. */
    static lemma InsertFacts(f: seq<Block>, total: nat, bpe: nat, i: nat, nb: Block)
      requires total > 0 && Canonical(f, total, bpe) && BlockOk(nb, total, bpe)
      requires i <= |f| && (forall k | 0 <= k < i :: f[k].offset < nb.offset)
      requires i < |f| ==> nb.offset <= f[i].offset
      requires forall x | Holds(nb, x) :: !InFree(f, x)
      ensures AllOk(Insert(f, i, nb), total, bpe)
      ensures Chained(Insert(f, i, nb), if i > 0 then i - 1 else 0, if i > 0 then i else 1)
      ensures SumSizes(Insert(f, i, nb)) == SumSizes(f) + nb.size <= total
      ensures forall x :: InFree(Insert(f, i, nb), x) <==> InFree(f, x) || Holds(nb, x)
    {
      var g := Insert(f, i, nb);
      InsertPlacement(f, total, bpe, i, nb);
      InsertShape(f, total, bpe, i, nb);
      ChainSorted(g, total, bpe, i - 1, i);
      SumBound(g, 0, total);
      InsertSum(f, i, nb);
      forall x ensures InFree(g, x) <==> InFree(f, x) || Holds(nb, x) {
        InsertBytes(f, i, nb, x);
      }
    }

    /**
     * The coalescing loop of `free`: from position `j` on, merges every block
     * with the next one while they touch.
     */
    static method Coalesce(f0: seq<Block>, j0: nat, total: nat, bpe: nat) returns (f: seq<Block>)
      requires j0 < |f0| && AllOk(f0, total, bpe) && Chained(f0, j0, j0 + 1)
      ensures Canonical(f, total, bpe)
      ensures forall x :: InFree(f, x) <==> InFree(f0, x)
      ensures SumSizes(f) == SumSizes(f0)
    {
      f := f0;
      var j := j0;
      while j < |f| - 1
        invariant CoalesceInv(f, f0, j, total, bpe)
        decreases |f| - j
      {
        var a, b := f[j], f[j + 1];
        if a.offset + a.size == b.offset {
          // the source's `j--` cancels the loop's `++j`: look at the same position again
          MergeStep(f, f0, j, total, bpe);
          f := f[..j] + [Block(a.offset, a.size + b.size)] + f[j + 2..];
        } else {
          SkipStep(f, f0, j, total, bpe);
          j := j + 1;
        }
      }
      CoalesceDone(f, f0, j, total, bpe);
    }

    /** The new state after a successful `Free` satisfies the invariant. */
    lemma FreeKeepsValid(old0: seq<Block>, live0: set<View>, view: View)
      requires totalBytes > 0 && bpe == BytesPerElement(elementType) && buffer.Length == totalBytes
      requires totalBytes % bpe == 0 && Canonical(freeList, totalBytes, bpe)
      requires view in live0 && live == live0 - {view}
      requires used + SumSizes(freeList) == totalBytes
      requires forall x :: InFree(freeList, x) <==> InFree(old0, x) || InView(view, x)
      requires forall v | v in live0 :: WellPlaced(v) && v.id < nextId
      requires forall v, w, x | v in live0 && w in live0 && v != w && InView(v, x) :: !InView(w, x)
      requires forall v, x | v in live0 && InView(v, x) :: !InFree(old0, x)
      requires forall x | 0 <= x < totalBytes :: InFree(old0, x) || exists v :: v in live0 && InView(v, x)
      ensures Valid()
    {
      forall v, x | v in live && InView(v, x) ensures !InFree(freeList, x) {
        assert v != view;
      }
      forall x | 0 <= x < totalBytes ensures InFree(freeList, x) || exists v :: v in live && InView(v, x) {
        if !InFree(old0, x) && !InView(view, x) {
          var v :| v in live0 && InView(v, x);
          assert v in live;
        }
      }
    }

    /**
     * Freeing every live view, in any order, leaves the single block `[0, totalBytes)`.
     */
    method FreeAll(views: seq<View>)
      requires Valid()
      requires forall a, b | 0 <= a < b < |views| :: views[a] != views[b]
      requires forall k | 0 <= k < |views| :: views[k] in live
      requires forall v | v in live :: v in views
      modifies this
      ensures Valid() && live == {}
      ensures freeList == [Block(0, totalBytes)] && used == 0
    {
      var k := 0;
      while k < |views|
        invariant 0 <= k <= |views| && Valid()
        invariant forall m | k <= m < |views| :: views[m] in live
        invariant forall v | v in live :: v in views[k..]
      {
        var r := Free(views[k]);
        assert r.Pass?;
        k := k + 1;
      }
      AllFreeIsOneBlock();
    }

    /** When no view is live, the free list is the single block covering the whole slab. */
    lemma AllFreeIsOneBlock()
      requires Valid() && live == {}
      ensures freeList == [Block(0, totalBytes)]
      ensures used == 0
    {
      if totalBytes > 0 {
        WholeSlab(freeList, totalBytes, bpe);
      }
      assert SumSizes(freeList) == totalBytes by { assert freeList[1..] == []; }
    }
  }
}
