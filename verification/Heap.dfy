/** Objects in the bump arena: what a byte memory has to look like for a string or a
    vector to be there, and why changing one object leaves the others alone. */
module Heap {
  import opened Bytes

  const POOL_SIZE: nat := 0x800_0000

  /** Far above anything the runtime asks for, and far below the width of a size. */
  const MAX_REQUEST: nat := 0x4000_0000_0000_0000

  /** The abstract objects. A raw block is memory handed out without a header. */
  datatype Obj =
    | Str(text: seq<byte>)
    | Vec(elemSize: nat, cap: nat, elems: seq<seq<byte>>)
    | Raw(bytes: seq<byte>)

  /** The pool at addresses `base ..`, its used prefix, and who holds which part.
      `blocks` maps the address of every block to its size; a block that has been moved
      away from stays allocated but has no owner. `objs` maps handles to objects. */
  datatype Heap = Heap(base: nat, mem: seq<byte>, off: nat,
                       blocks: map<nat, nat>, owner: map<nat, nat>, objs: map<nat, Obj>)

  predicate InPool(H: Heap, a: nat, n: nat) { H.base <= a && a + n <= H.base + |H.mem| }

  function Read(H: Heap, a: nat, n: nat): (bs: seq<byte>)
    requires InPool(H, a, n)
    ensures |bs| == n
  {
    H.mem[a - H.base..a - H.base + n]
  }

  function Field(H: Heap, a: nat, k: nat): nat
    requires InPool(H, a, k)
  {
    Value(Read(H, a, k))
  }

  ghost predicate Apart(H: Heap, b: nat, c: nat)
    requires b in H.blocks && c in H.blocks
  {
    b + H.blocks[b] <= c || c + H.blocks[c] <= b
  }

  /** A block lies on an 8-byte boundary inside the used part of the pool. */
  ghost predicate BlockOk(H: Heap, b: nat)
    requires b in H.blocks
  {
    && H.base <= b && b + H.blocks[b] <= H.base + H.off
    && b % 8 == 0 && H.blocks[b] % 8 == 0 && H.blocks[b] > 0
  }

  /** The allocator's invariant: live blocks are disjoint, aligned, and inside the used prefix. */
  ghost predicate ArenaOk(H: Heap) {
    && 0 < H.base && H.base % 8 == 0 && H.base + POOL_SIZE <= 0x8000_0000
    && |H.mem| == POOL_SIZE && H.off <= POOL_SIZE && H.off % 8 == 0
    && BlocksInPlace(H) && BlocksApart(H)
    && H.owner.Keys <= H.blocks.Keys
  }

  ghost predicate BlocksInPlace(H: Heap) { forall b {:trigger BlockOk(H, b)} :: b in H.blocks ==> BlockOk(H, b) }

  ghost predicate BlocksApart(H: Heap) {
    forall b, c {:trigger Apart(H, b, c)} :: b in H.blocks && c in H.blocks && b != c ==> Apart(H, b, c)
  }

  // -------------------------------------------------------------------- objects --

  function Flatten(elems: seq<seq<byte>>): seq<byte> {
    if elems == [] then [] else Flatten(elems[..|elems| - 1]) + elems[|elems| - 1]
  }

  function HeaderSize(o: Obj): nat { match o case Str(_) => 16 case Vec(_, _, _) => 24 case Raw(_) => 0 }

  /** The bytes that `n` units take. */
  function Span(n: nat, unit: nat): nat { n * unit }

  function UnitSize(o: Obj): nat { if o.Vec? then o.elemSize else 1 }

  function Length(o: Obj): nat
    requires !o.Raw?
  {
    if o.Vec? then |o.elems| else |o.text|
  }

  /** The bytes that an object keeps in its data block: text with its terminator, or the elements one after another. */
  function Contents(o: Obj): seq<byte> {
    match o
    case Str(text) => text + [0]
    case Vec(_, _, elems) => Flatten(elems)
    case Raw(bytes) => bytes
  }

  /** The object with room for `cap` units. The capacity of a string is not part of its value. */
  function WithCap(o: Obj, cap: nat): Obj { if o.Vec? then o.(cap := cap) else o }

  predicate Uniform(elems: seq<seq<byte>>, size: nat) { forall i :: 0 <= i < |elems| ==> |elems[i]| == size }

  function DataOf(H: Heap, h: nat): nat
    requires InPool(H, h, 16)
  {
    Field(H, h, 8)
  }

  function LenOf(H: Heap, h: nat): nat
    requires InPool(H, h, 16)
  {
    Field(H, h + 8, 4)
  }

  function CapOf(H: Heap, h: nat): nat
    requires InPool(H, h, 16)
  {
    Field(H, h + 12, 4)
  }

  /** The block `b` belongs to the object `h`. */
  predicate Owns(H: Heap, h: nat, b: nat) { b in H.owner && b in H.blocks && H.owner[b] == h }

  /** A string or vector stands at `h`: its header block holds the address of its data
      block, its length and its capacity, and its data block starts with its contents. */
  ghost predicate ObjOk(H: Heap, h: nat, o: Obj)
    requires ArenaOk(H) && Owns(H, h, h)
  {
    BlockOk(H, h) &&
    if o.Raw? then |o.bytes| <= H.blocks[h] && Read(H, h, |o.bytes|) == o.bytes else
      && H.blocks[h] == HeaderSize(o)
      && var d, cap := DataOf(H, h), CapOf(H, h);
      && d != h && Owns(H, h, d) && BlockOk(H, d)
      && H.blocks[d] == Align8(Span(cap, UnitSize(o)))
      && LenOf(H, h) == Length(o) <= cap
      && |Contents(o)| <= Span(cap, UnitSize(o))
      && Read(H, d, |Contents(o)|) == Contents(o)
      && (o.Vec? ==> Field(H, h + 16, 4) == o.elemSize >= 1 && Uniform(o.elems, o.elemSize) && cap == o.cap >= 8)
  }

  ghost predicate HeapOk(H: Heap) {
    && ArenaOk(H)
    && (forall h :: h in H.objs ==> Owns(H, h, h) && ObjOk(H, h, H.objs[h]))
  }

  // ------------------------------------------------------------------ separation --

  /** Between the two heaps nothing happened to the block `b`. */
  ghost predicate SameBlock(H: Heap, H': Heap, b: nat)
    requires ArenaOk(H) && ArenaOk(H') && b in H.blocks && BlockOk(H, b)
  {
    && b in H'.blocks && H'.blocks[b] == H.blocks[b] && BlockOk(H', b)
    && (b in H.owner ==> b in H'.owner && H'.owner[b] == H.owner[b])
    && Read(H', b, H.blocks[b]) == Read(H, b, H.blocks[b])
  }

  lemma ReadInside(H: Heap, H': Heap, b: nat, n: nat, a: nat, k: nat)
    requires InPool(H, b, n) && InPool(H', b, n) && Read(H, b, n) == Read(H', b, n)
    requires b <= a && a + k <= b + n
    ensures Read(H, a, k) == Read(H', a, k)
  {
    assert Read(H, a, k) == Read(H, b, n)[a - b..a - b + k];
    assert Read(H', a, k) == Read(H', b, n)[a - b..a - b + k];
  }

  /** An object whose blocks are left alone keeps its value. */
  lemma ObjFrame(H: Heap, H': Heap, h: nat, o: Obj)
    requires ArenaOk(H) && ArenaOk(H') && Owns(H, h, h) && ObjOk(H, h, o)
    requires H.base == H'.base && SameBlock(H, H', h)
    requires !o.Raw? ==> SameBlock(H, H', DataOf(H, h))
    ensures Owns(H', h, h) && ObjOk(H', h, o)
  {
    hide Align8, Contents, Value, Uniform;
    var n := H.blocks[h];
    if o.Raw? {
      ReadInside(H, H', h, n, h, |o.bytes|);
    } else {
      ReadInside(H, H', h, n, h, 8);
      ReadInside(H, H', h, n, h + 8, 4);
      ReadInside(H, H', h, n, h + 12, 4);
      if o.Vec? { ReadInside(H, H', h, n, h + 16, 4); }
      var d := DataOf(H, h);
      ReadInside(H, H', d, H.blocks[d], d, |Contents(o)|);
    }
  }

  /** From `H` to `H'` only blocks of `h`, and memory that was free, may have changed. */
  ghost predicate OnlyTouches(H: Heap, H': Heap, h: nat)
    requires ArenaOk(H) && ArenaOk(H')
  {
    H.base == H'.base && forall b :: b in H.blocks && !Owns(H, h, b) ==> SameBlock(H, H', b)
  }

  /** Every object but `h` keeps its value. */
  lemma OthersKept(H: Heap, H': Heap, h: nat)
    requires HeapOk(H) && ArenaOk(H') && OnlyTouches(H, H', h)
    ensures forall x :: x in H.objs && x != h ==> Owns(H', x, x) && ObjOk(H', x, H.objs[x])
  {
    hide ArenaOk, ObjOk, SameBlock, BlockOk;
    forall x | x in H.objs && x != h ensures Owns(H', x, x) && ObjOk(H', x, H.objs[x]) {
      ObjBlocks(H, x, H.objs[x]);
      ObjFrame(H, H', x, H.objs[x]);
    }
  }

  lemma ObjBlocks(H: Heap, h: nat, o: Obj)
    requires ArenaOk(H) && Owns(H, h, h) && ObjOk(H, h, o)
    ensures BlockOk(H, h)
    ensures !o.Raw? ==> Owns(H, h, DataOf(H, h)) && BlockOk(H, DataOf(H, h))
  {}

  /** Bytes outside the blocks of `h` being the same is enough. */
  lemma TouchedBytes(H: Heap, H': Heap, h: nat)
    requires ArenaOk(H) && ArenaOk(H') && H.base == H'.base && H.off <= H'.off
    requires forall b :: b in H.blocks && !Owns(H, h, b) ==> b in H'.blocks && H'.blocks[b] == H.blocks[b]
    requires forall b :: b in H.owner && H.owner[b] != h ==> b in H'.owner && H'.owner[b] == H.owner[b]
    requires forall i :: 0 <= i < H.off && !InBlocksOf(H, h, H.base + i) ==> H'.mem[i] == H.mem[i]
    ensures OnlyTouches(H, H', h)
  {
    forall b | b in H.blocks && !Owns(H, h, b) ensures SameBlock(H, H', b) {
      assert BlockOk(H, b) && BlockOk(H', b);
      var n := H.blocks[b];
      forall i | b - H.base <= i < b - H.base + n ensures H'.mem[i] == H.mem[i] {
        forall c: nat | Owns(H, h, c) ensures !(c <= H.base + i < c + H.blocks[c]) {
          assert Apart(H, b, c);
        }
      }
      assert Read(H', b, n) == Read(H, b, n);
    }
  }

  ghost predicate InBlocksOf(H: Heap, h: nat, a: nat) {
    exists c: nat :: Owns(H, h, c) && c <= a < c + H.blocks[c]
  }

  /** The object `h` has been given the value `o`, and nothing else has happened. */
  lemma Replace(H: Heap, H': Heap, h: nat, o: Obj)
    requires HeapOk(H) && ArenaOk(H') && OnlyTouches(H, H', h)
    requires Owns(H', h, h) && ObjOk(H', h, o) && H'.objs == H.objs[h := o]
    ensures HeapOk(H')
  {
    hide ArenaOk, ObjOk, OnlyTouches;
    OthersKept(H, H', h);
  }

  // -------------------------------------------------------------------- elements --

  lemma {:induction false} FlattenLength(elems: seq<seq<byte>>, size: nat)
    requires Uniform(elems, size)
    ensures |Flatten(elems)| == Span(|elems|, size)
  {
    if elems != [] {
      var n := |elems| - 1;
      FlattenLength(elems[..n], size);
      SpanNext(n, size);
    }
  }

  lemma FlattenPush(elems: seq<seq<byte>>, e: seq<byte>)
    ensures Flatten(elems + [e]) == Flatten(elems) + e
  {
    assert (elems + [e])[..|elems|] == elems;
  }

  lemma SpanMonotone(i: nat, n: nat, size: nat)
    requires i <= n
    ensures Span(i, size) <= Span(n, size)
  {}

  lemma SpanNext(i: nat, size: nat)
    ensures Span(i + 1, size) == Span(i, size) + size && Span(1, size) == size && Span(i, 1) == i
  {}

  /** Element `i` stands `i` elements after the start. */
  lemma {:induction false} FlattenAt(elems: seq<seq<byte>>, size: nat, i: nat)
    requires Uniform(elems, size) && i < |elems|
    ensures Span(i, size) + size <= |Flatten(elems)|
    ensures Flatten(elems)[Span(i, size)..Span(i, size) + size] == elems[i]
  {
    var n := |elems| - 1;
    var a := Span(i, size);
    FlattenLength(elems[..n], size);
    if i == n {
      assert Flatten(elems)[a..a + size] == elems[n];
    } else {
      FlattenAt(elems[..n], size, i);
      assert elems[..n][i] == elems[i];
      assert Flatten(elems)[a..a + size] == Flatten(elems[..n])[a..a + size];
    }
  }
}
