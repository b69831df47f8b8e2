/**
 * A fixed-capacity pool of generation-checked handles.  A handle is the
 * 32-bit number `gen * 2^indexBits + index`; destroying a handle bumps its
 * slot's generation, so the old number stops resolving.  Free slots sit on a
 * stack (`free[0..top)`), popped by `Create` and pushed by `Destroy`.
 */
module Handles {
  import opened Wrappers
  import opened Js
  import opened Bits

  datatype HandleError = OutOfHandles | InvalidHandleType | InvalidHandleIndex | InvalidOrStale

  const DEFAULT_CAPACITY: nat := 1024

  /** The number an option value holds; an absent option reads as `undefined`, which `| 0` turns into 0. */
  function OptionNum(o: Option<Num>): Num
  {
    if o.Some? then o.value else NaN
  }

  /** `Math.max(1, (opts.capacity | 0) || 1024)`. */
  function CapacityOf(capacity: Option<Num>): (c: nat)
    ensures 1 <= c < TWO31
  {
    var t := ToInt32(OptionNum(capacity));
    Max(1, if t == 0 then DEFAULT_CAPACITY else t)
  }

  /**
   * The capacity option: absent, infinite or NaN gives the default; a positive
   * integer below `2^31` is kept; a negative number down to `-2^31` gives one slot.
   */
  lemma CapacityOfCases(capacity: Option<Num>)
    ensures capacity.None? || !IsFinite(capacity.value) ==> CapacityOf(capacity) == DEFAULT_CAPACITY
    ensures capacity.Some? && IsInteger(capacity.value) && 1.0 <= capacity.value.v < TWO31 as real ==>
              CapacityOf(capacity) == capacity.value.v.Floor
    ensures capacity.Some? && IsFinite(capacity.value) && -TWO31 as real < capacity.value.v <= -1.0 ==>
              CapacityOf(capacity) == 1
  {
  }

  /** `Math.ceil(Math.log2(cap)) || 1`: the bits the index takes, at least one. */
  function IndexBits(cap: nat): (b: nat)
    requires 1 <= cap < TWO31
    ensures 1 <= b <= 31
    ensures cap <= Pow2(b)
    ensures b > 1 ==> Pow2(b - 1) < cap
  {
    Pow2Of31And32();
    CeilLog2Least(cap, 31);
    var l := CeilLog2(cap);
    if l == 0 then 1 else l
  }

  /** The initial free stack `[n - 1, ..., 1, 0]`, so that the first pops give slots 0, 1, 2, ... */
  function Countdown(n: nat): (s: seq<nat>)
    ensures |s| == n && forall k | 0 <= k < n :: s[k] == n - 1 - k
  {
    seq(n, k => n - 1 - k)
  }

  /** `gen * 2^indexBits + idx`. */
  function Pack(g: nat, idx: nat, indexBits: nat): nat
  {
    g * Pow2(indexBits) + idx
  }

  /** A packed handle fits the bits it is given and splits back into its generation and index. */
  lemma PackDecode(g: nat, idx: nat, ib: nat, gb: nat)
    requires idx < Pow2(ib) && g < Pow2(gb)
    ensures Pack(g, idx, ib) < Pow2(ib + gb)
    ensures Pack(g, idx, ib) % Pow2(ib) == idx
    ensures (Pack(g, idx, ib) / Pow2(ib)) % Pow2(gb) == g
  {
    var p, q := Pow2(ib), Pow2(gb);
    var h := g * p + idx;
    DivModUnique(h, p, g, idx);
    Pow2Add(ib, gb);
    MulMonotone(g + 1, q, p);
    assert h < (g + 1) * p;
    DivModUnique(g, q, 0, g);
  }

  /** With `ib + gb == 32`, masking the generation and wrapping the handle to 32 bits change nothing. */
  lemma PackFits(g: nat, idx: nat, ib: nat, gb: nat)
    requires ib + gb == 32 && idx < Pow2(ib) && g < Pow2(gb)
    ensures g % Pow2(gb) == g
    ensures Pack(g, idx, ib) < TWO32 && Pack(g, idx, ib) % TWO32 == Pack(g, idx, ib)
  {
    Pow2Of31And32();
    PackDecode(g, idx, ib, gb);
    DivModUnique(g, Pow2(gb), 0, g);
    DivModUnique(Pack(g, idx, ib), TWO32, 0, Pack(g, idx, ib));
  }

  /** Different (generation, index) pairs give different handles. */
  lemma PackInjective(g1: nat, i1: nat, g2: nat, i2: nat, ib: nat)
    requires i1 < Pow2(ib) && i2 < Pow2(ib)
    requires Pack(g1, i1, ib) == Pack(g2, i2, ib)
    ensures g1 == g2 && i1 == i2
  {
    DivModUnique(Pack(g1, i1, ib), Pow2(ib), g1, i1);
    DivModUnique(Pack(g2, i2, ib), Pow2(ib), g2, i2);
  }

  /** Bumping a generation modulo `2^gb`, with at least one bit, always changes it. */
  lemma NextGenDiffers(g: nat, gb: nat)
    requires gb >= 1 && g < Pow2(gb)
    ensures (g + 1) % Pow2(gb) != g
  {
    assert Pow2(gb) == 2 * Pow2(gb - 1);
    if g + 1 < Pow2(gb) {
      DivModUnique(g + 1, Pow2(gb), 0, g + 1);
    } else {
      DivModUnique(g + 1, Pow2(gb), 1, 0);
    }
  }

  /** Below `p * q`, the quotient by `p` needs no masking to `q`. */
  lemma SplitHigh(h: nat, p: nat, q: nat)
    requires p > 0 && q > 0 && h < p * q
    ensures (h / p) % q == h / p
    ensures h == (h / p) * p + h % p
  {
    DivBound(h, p, q);
    DivModUnique(h / p, q, 0, h / p);
  }

  /** A 32-bit number is its masked upper part times `2^ib` plus its low `ib` bits. */
  lemma GenSplit(h: nat, ib: nat, gb: nat)
    requires ib + gb == 32 && h < TWO32
    ensures (h / Pow2(ib)) % Pow2(gb) < Pow2(gb)
    ensures h == ((h / Pow2(ib)) % Pow2(gb)) * Pow2(ib) + h % Pow2(ib)
  {
    Pow2Of31And32();
    Pow2Add(ib, gb);
    SplitHigh(h, Pow2(ib), Pow2(gb));
  }

  /** A recycled slot's next generation gives a handle different from the one just destroyed. */
  lemma RecycledHandleDiffers(g: nat, idx: nat, ib: nat, gb: nat)
    requires gb >= 1 && g < Pow2(gb) && idx < Pow2(ib)
    ensures Pack((g + 1) % Pow2(gb), idx, ib) != Pack(g, idx, ib)
  {
    NextGenDiffers(g, gb);
    if Pack((g + 1) % Pow2(gb), idx, ib) == Pack(g, idx, ib) {
      PackInjective((g + 1) % Pow2(gb), idx, g, idx, ib);
    }
  }

  /** `_isFiniteUint32(n)`: a number, finite, an integer, in `[0, 2^32 - 1]`. */
  predicate IsFiniteUint32(h: Value)
  {
    h.Number? && IsFinite(h.n) && 0.0 <= h.n.v <= 4294967295.0 && IsInteger(h.n)
  }

  /** The integer a valid handle number holds (`handle >>> 0` is the identity on it). */
  function Uint32Of(h: Value): (r: nat)
    requires IsFiniteUint32(h)
    ensures r < TWO32 && h == Number(Finite(r as real))
  {
    h.n.v.Floor
  }

  /** A handle as the JavaScript number a caller holds. */
  function NumberOf(h: nat): Value
  {
    Number(Finite(h as real))
  }

  lemma NumberOfValid(h: nat)
    requires h < TWO32
    ensures IsFiniteUint32(NumberOf(h)) && Uint32Of(NumberOf(h)) == h
  {
  }

  /** A sequence of distinct numbers below `n` has at most `n` elements. */
  lemma {:induction false} DistinctBound(s: seq<nat>, n: nat)
    requires forall a, b | 0 <= a < b < |s| :: s[a] != s[b]
    requires forall k | 0 <= k < |s| :: s[k] < n
    ensures |s| <= n
    decreases n
  {
    if |s| > 0 {
      assert s[0] < n;
      var t := s;
      if p :| 0 <= p < |s| && s[p] == n - 1 {
        t := s[..p] + s[p + 1..];
        forall a, b | 0 <= a < b < |t| ensures t[a] != t[b] {
          var a', b' := if a < p then a else a + 1, if b < p then b else b + 1;
          assert t[a] == s[a'] && t[b] == s[b'];
        }
        forall k | 0 <= k < |t| ensures t[k] < n - 1 {
          var k' := if k < p then k else k + 1;
          assert t[k] == s[k'] && k' != p;
        }
      } else {
        forall k | 0 <= k < |t| ensures t[k] < n - 1 {
          assert s[k] != n - 1;
        }
      }
      DistinctBound(t, n - 1);
    }
  }

  /**
   * The slot arrays of a pool: stack entries are distinct slot numbers,
   * generations fit `gb` bits, and a slot on the stack holds no value.
   */
  ghost predicate SlotsOk<T>(vs: seq<Option<T>>, gs: seq<nat>, fs: seq<nat>, top: nat, gb: nat)
  {
    && |gs| == |vs| && |fs| == |vs| && top <= |vs|
    && (forall k | 0 <= k < top :: fs[k] < |vs|)
    && (forall a, b | 0 <= a < b < top :: fs[a] != fs[b])
    && (forall i | 0 <= i < |gs| :: gs[i] < Pow2(gb))
    && (forall k | 0 <= k < top :: vs[fs[k]].None?)
  }

  /** Popping slot `fs[top - 1]` and storing a value in it keeps the slot arrays well formed. */
  lemma CreateStep<T>(vs: seq<Option<T>>, gs: seq<nat>, fs: seq<nat>, top: nat, gb: nat, value: Option<T>)
    requires SlotsOk(vs, gs, fs, top, gb) && top > 0
    ensures SlotsOk(vs[fs[top - 1] := value], gs, fs, top - 1, gb)
  {
    var idx := fs[top - 1];
    forall k | 0 <= k < top - 1 ensures vs[idx := value][fs[k]].None? {
      assert fs[k] != idx;
    }
  }

  /** Emptying an occupied slot, giving it a new generation and pushing it keeps the slot arrays well formed. */
  lemma DestroyStep<T>(vs: seq<Option<T>>, gs: seq<nat>, fs: seq<nat>, top: nat, gb: nat, idx: nat, next: nat)
    requires SlotsOk(vs, gs, fs, top, gb) && idx < |vs| && vs[idx].Some? && top < |vs| && next < Pow2(gb)
    ensures SlotsOk(vs[idx := None], gs[idx := next], fs[top := idx], top + 1, gb)
  {
    assert forall k | 0 <= k < top :: fs[k] != idx;
  }

  /** There is room on the stack while some slot holds a value. */
  lemma StackRoom<T>(vs: seq<Option<T>>, gs: seq<nat>, fs: seq<nat>, top: nat, gb: nat, idx: nat)
    requires SlotsOk(vs, gs, fs, top, gb) && idx < |vs| && vs[idx].Some?
    ensures top < |vs|
  {
    var s := fs[..top] + [idx];
    forall a, b | 0 <= a < b < |s| ensures s[a] != s[b] {
      if b == top { assert vs[fs[a]].None?; }
    }
    DistinctBound(s, |vs|);
  }

  /** Empty slots of generation 0, all of them on the stack, are well formed. */
  lemma InitialSlots<T>(vs: seq<Option<T>>, gs: seq<nat>, fs: seq<nat>, cap: nat, gb: nat)
    requires |vs| == cap && |gs| == cap && |fs| == cap
    requires forall k | 0 <= k < cap :: vs[k].None?
    requires forall k | 0 <= k < cap :: gs[k] == 0
    requires forall k | 0 <= k < cap :: fs[k] == cap - 1 - k
    ensures SlotsOk(vs, gs, fs, cap, gb)
  {
    forall a, b | 0 <= a < b < cap ensures fs[a] != fs[b] {
    }
  }

  class HandlePool<T> {
    const capacity: nat
    const indexBits: nat
    const genBits: nat
    /** Payloads by slot; `None` is `undefined`. */
    const values: array<Option<T>>
    /** Generation counter of each slot. */
    const gen: array<nat>
    /** The free-slot stack; its entries are `free[0..top)`. */
    const free: array<nat>
    var top: nat
    var live: nat

    /** The fixed layout: the capacity, the bit split and the array sizes. */
    ghost predicate Layout()
      reads this
    {
      && 1 <= capacity < TWO31
      && 1 <= indexBits <= 31 && capacity <= Pow2(indexBits) && genBits == 32 - indexBits
      && values.Length == capacity && gen.Length == capacity && free.Length == capacity
      && gen != free
    }

    ghost predicate Valid()
      reads this, values, gen, free
    {
      && Layout()
      && top <= capacity && live == capacity - top
      && SlotsOk(values[..], gen[..], free[..], top, genBits)
    }

    /** The body of the constructor, for an already computed capacity `cap`. */
    constructor (cap: nat)
      requires 1 <= cap < TWO31
      ensures Valid() && fresh(values) && fresh(gen) && fresh(free)
      ensures capacity == cap && indexBits == IndexBits(capacity) && genBits == 32 - indexBits
      ensures top == capacity && live == 0
      ensures free[..] == Countdown(capacity) && gen[..] == seq(capacity, _ => 0) && values[..] == seq(capacity, _ => None)
    {
      capacity := cap;
      indexBits := IndexBits(cap);
      genBits := 32 - IndexBits(cap);
      var vs, gs, stack := Storage(cap, 32 - IndexBits(cap));
      values := vs;
      gen := gs;
      free := stack;
      top := cap;
      live := 0;
    }

    /**
     * `new HandlePool({capacity})`, with an absent option as `None`; the
     * capacity check after the index bits never fails, as they stay below 32.
     */
    static method New(capacityOpt: Option<Num>) returns (p: HandlePool<T>)
      ensures fresh(p) && fresh(p.values) && fresh(p.gen) && fresh(p.free) && p.Valid()
      ensures p.capacity == CapacityOf(capacityOpt) && p.indexBits == IndexBits(p.capacity) && p.genBits == 32 - p.indexBits
      ensures p.top == p.capacity && p.live == 0
      ensures p.free[..] == Countdown(p.capacity) && p.gen[..] == seq(p.capacity, _ => 0)
      ensures p.values[..] == seq(p.capacity, _ => None)
    {
      p := new HandlePool(CapacityOf(capacityOpt));
    }

    /**
     * The storage of a new pool: `new Array(cap)` holds `undefined` everywhere,
     * `new Uint32Array(cap)` zeros, and the free stack counts down to 0.
     */
    static method Storage(cap: nat, gb: nat) returns (vs: array<Option<T>>, gs: array<nat>, stack: array<nat>)
      ensures fresh(vs) && fresh(gs) && fresh(stack) && gs != stack
      ensures vs.Length == cap && gs.Length == cap && stack.Length == cap
      ensures vs[..] == seq(cap, _ => None) && gs[..] == seq(cap, _ => 0) && stack[..] == Countdown(cap)
      ensures SlotsOk(vs[..], gs[..], stack[..], cap, gb)
    {
      vs := new Option<T>[cap](_ => None);
      gs := new nat[cap](_ => 0);
      stack := FillStack(cap);
      InitialSlots(vs[..], gs[..], stack[..], cap, gb);
    }

    /** The initial free stack `[cap - 1, ..., 1, 0]`, so that the first pops give slots 0, 1, 2, ... */
    static method FillStack(cap: nat) returns (stack: array<nat>)
      ensures fresh(stack) && stack.Length == cap
      ensures forall k | 0 <= k < cap :: stack[k] == cap - 1 - k
    {
      stack := new nat[cap];
      for i := 0 to cap
        invariant forall k | 0 <= k < i :: stack[k] == cap - 1 - k
      {
        stack[i] := cap - 1 - i;
      }
    }

    /** `liveCount()`: the slots off the free stack. */
    function LiveCount(): (n: nat)
      reads this, values, gen, free
      requires Valid()
      ensures n == capacity - top && n <= capacity
    {
      live
    }

    /** `capacity()`: at least one slot, and every slot index fits the index bits. */
    function Capacity(): (n: nat)
      reads this, values, gen, free
      requires Valid()
      ensures 1 <= n < TWO31 && n <= Pow2(indexBits)
    {
      capacity
    }

    /** The handle that currently names slot `idx`. */
    function HandleOf(idx: nat): nat
      reads this, gen
      requires gen.Length == capacity && idx < capacity
    {
      Pack(gen[idx], idx, indexBits)
    }

    /**
     * `((gen & genMask) * 2 ** indexBits + idx) >>> 0`, the handle `create`
     * returns for slot `idx`: the mask and the wrap change nothing, as the
     * generation fits its bits and the handle fits 32.
     */
    function PackedHandle(idx: nat): (h: nat)
      reads this, gen
      requires Layout() && idx < capacity && gen[idx] < Pow2(genBits)
      ensures h == HandleOf(idx) && h < TWO32
    {
      PackFits(gen[idx], idx, indexBits, genBits);
      Pack(gen[idx] % Pow2(genBits), idx, indexBits) % TWO32
    }

    /** `_decodeIndex(handle)`: the low `indexBits` bits of a valid handle number. */
    function DecodeIndex(handle: Value): (r: Result<nat, HandleError>)
      reads this, values, gen, free
      requires Valid()
      ensures !IsFiniteUint32(handle) <==> r == Err(InvalidHandleType)
      ensures r == Err(InvalidHandleIndex) <==>
                IsFiniteUint32(handle) && Uint32Of(handle) % Pow2(indexBits) >= capacity
      ensures r.Ok? ==> r.value < capacity && r.value == Uint32Of(handle) % Pow2(indexBits)
    {
      if !IsFiniteUint32(handle) then Err(InvalidHandleType)
      else
        var idx := Uint32Of(handle) % Pow2(indexBits);
        if idx >= capacity then Err(InvalidHandleIndex) else Ok(idx)
    }

    /** `_decodeGen(handle)`: the bits above the index, masked to `genBits`. */
    function DecodeGen(h: nat): (g: nat)
      reads this, values, gen, free
      requires Valid() && h < TWO32
      ensures g < Pow2(genBits)
      ensures h == g * Pow2(indexBits) + h % Pow2(indexBits)
    {
      GenSplit(h, indexBits, genBits);
      (h / Pow2(indexBits)) % Pow2(genBits)
    }

    /** `get(handle)`. */
    function Get(handle: Value): (r: Result<T, HandleError>)
      reads this, values, gen, free
      requires Valid()
      ensures !IsFiniteUint32(handle) ==> r == Err(InvalidHandleType)
    {
      match DecodeIndex(handle)
      case Err(e) => Err(e)
      case Ok(idx) =>
        if gen[idx] != DecodeGen(Uint32Of(handle)) then Err(InvalidOrStale)
        else if values[idx].None? then Err(InvalidOrStale)
        else Ok(values[idx].value)
    }

    /** The current handle of every slot resolves to what the slot holds. */
    lemma LiveHandleResolves(idx: nat)
      requires Valid() && idx < capacity
      ensures HandleOf(idx) < TWO32
      ensures Get(NumberOf(HandleOf(idx))) == if values[idx].Some? then Ok(values[idx].value) else Err(InvalidOrStale)
    {
      Pow2Of31And32();
      PackDecode(gen[idx], idx, indexBits, genBits);
      NumberOfValid(HandleOf(idx));
    }

    /** Only the current handle of an occupied slot resolves, and to that slot's value. */
    lemma GetOkIsCurrent(handle: Value)
      requires Valid() && Get(handle).Ok?
      ensures exists idx | 0 <= idx < capacity ::
                handle == NumberOf(HandleOf(idx)) && values[idx] == Some(Get(handle).value)
    {
      var h := Uint32Of(handle);
      var idx := DecodeIndex(handle).value;
      assert h == gen[idx] * Pow2(indexBits) + idx;
      assert handle == NumberOf(HandleOf(idx));
    }

    /** `create(value)`: pops a slot, stores the value and returns the slot's current handle. */
    method Create(value: Option<T>) returns (r: Result<nat, HandleError>)
      requires Valid()
      modifies this, values
      ensures Valid()
      ensures r.Ok? <==> old(top) > 0
      ensures r.Err? ==> r.error == OutOfHandles
      ensures r.Err? ==> top == old(top) && live == old(live) && values[..] == old(values[..])
      ensures r.Ok? ==>
        var idx := free[old(top) - 1];
        && r.value == HandleOf(idx) && r.value < TWO32
        && values[..] == old(values[..])[idx := value]
        && top == old(top) - 1 && live == old(live) + 1
      ensures r.Ok? ==> Get(NumberOf(r.value)) == if value.Some? then Ok(value.value) else Err(InvalidOrStale)
    {
      if top == 0 {
        return Err(OutOfHandles);
      }
      top := top - 1;
      var idx := free[top];
      ghost var vs := values[..];
      CreateStep(vs, gen[..], free[..], top + 1, genBits, value);
      values[idx] := value;
      assert values[..] == vs[idx := value];
      live := live + 1;
      var h := PackedHandle(idx);
      LiveHandleResolves(idx);
      return Ok(h);
    }

    /**
     * `destroy(handle)`: validates like `get`, then empties the slot, bumps
     * its generation and pushes it back on the free stack.
     */
    method Destroy(handle: Value) returns (r: Outcome<HandleError>)
      requires Valid()
      modifies this, values, gen, free
      ensures Valid()
      ensures r.Fail? <==> old(Get(handle)).Err?
      ensures r.Fail? ==> r.error == old(Get(handle)).error
      ensures r.Fail? ==> top == old(top) && live == old(live)
      ensures r.Fail? ==> values[..] == old(values[..]) && gen[..] == old(gen[..]) && free[..] == old(free[..])
      ensures r.Pass? ==>
        && old(DecodeIndex(handle)).Ok?
        && var idx := old(DecodeIndex(handle)).value;
        && values[..] == old(values[..])[idx := None]
        && gen[..] == old(gen[..])[idx := (old(gen[idx]) + 1) % Pow2(genBits)]
        && top == old(top) + 1 && live == old(live) - 1
        && free[..] == old(free[..])[old(top) := idx]
      ensures r.Pass? ==> Get(handle) == Err(InvalidOrStale)
    {
      var d := DecodeIndex(handle);
      if d.Err? {
        return Fail(d.error);
      }
      var idx := d.value;
      var g := DecodeGen(Uint32Of(handle));
      if gen[idx] != g {
        return Fail(InvalidOrStale);
      }
      if values[idx].None? {
        return Fail(InvalidOrStale);
      }
      NextGenDiffers(g, genBits);
      Release(idx);
      return Pass;
    }

    /** The invalidation of `destroy`: empties slot `idx`, bumps its generation and pushes it on the free stack. */
    method Release(idx: nat)
      requires Valid() && idx < capacity && values[idx].Some?
      modifies this, values, gen, free
      ensures Valid()
      ensures values[..] == old(values[..])[idx := None]
      ensures gen[..] == old(gen[..])[idx := (old(gen[idx]) + 1) % Pow2(genBits)]
      ensures top == old(top) + 1 && live == old(live) - 1
      ensures free[..] == old(free[..])[old(top) := idx]
    {
      StackRoom(values[..], gen[..], free[..], top, genBits, idx);
      var next: nat := (gen[idx] + 1) % Pow2(genBits);
      DestroyStep(values[..], gen[..], free[..], top, genBits, idx, next);
      values[idx] := None;
      gen[idx] := next;
      free[top] := idx;
      top := top + 1;
      live := live - 1;
    }
  }
}
