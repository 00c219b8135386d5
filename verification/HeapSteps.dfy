/** How single steps of the runtime carry a heap in good order to the next one. */
module HeapSteps {
  import opened Bytes
  import opened Heap

  // ------------------------------------------------------------ growing an object --

  /** Memory after `n` bytes at `y` were copied to `z`, or left where they are if that is `y`. */
  function Moved(m: seq<byte>, y: nat, z: nat, n: nat): (r: seq<byte>)
    requires y + n <= |m| && z + n <= |m|
    ensures |r| == |m|
  {
    if y == z then m else Put(m, z, m[y..y + n])
  }

  /** The block `p` ends where the used prefix ends. */
  predicate IsLast(H: Heap, p: nat) { p in H.blocks && p + H.blocks[p] == H.base + H.off }

  /** `H` after the block `p` was given `newSize` bytes at `r`. */
  function Reallocated(H: Heap, p: nat, r: nat, oldSize: nat, newSize: nat): Heap
    requires InPool(H, p, oldSize) && InPool(H, r, oldSize) && Align8(oldSize) <= H.off
  {
    H.(off := if p == r then H.off + Align8(newSize) - Align8(oldSize) else H.off + Align8(newSize),
       blocks := H.blocks[r := Align8(newSize)], mem := Moved(H.mem, p - H.base, r - H.base, oldSize))
  }

  lemma NotMoved(m: seq<byte>, y: nat, n: nat)
    requires y + n <= |m|
    ensures Moved(m, y, y, n) == m
  {}

  /** Memory after the capacity at `x + 12` and the data address at `x` were rewritten,
      with the `n` bytes at `y` copied to `z` in between unless `y == z`. */
  function Grown(m: seq<byte>, x: nat, y: nat, z: nat, n: nat, cap: nat, data: nat): seq<byte>
    requires x + 16 <= |m| && y + n <= |m| && z + n <= |m|
  {
    Put(Moved(Put(m, x + 12, Word(cap, 4)), y, z, n), x, Word(data, 8))
  }

  lemma MovedReads(m: seq<byte>, y: nat, z: nat, n: nat)
    requires y + n <= |m| && z + n <= |m|
    ensures Moved(m, y, z, n)[z..z + n] == m[y..y + n]
  {
    hide Put;
    if y != z { PutSlice(m, z, m[y..y + n]); }
  }

  lemma MovedFrame(m: seq<byte>, y: nat, z: nat, n: nat)
    requires y + n <= |m| && z + n <= |m|
    ensures forall i :: 0 <= i < |m| && (y == z || !(z <= i < z + n)) ==> Moved(m, y, z, n)[i] == m[i]
  {
    hide Put;
    if y != z { PutFrame(m, z, m[y..y + n]); }
  }

  lemma MovedElsewhere(m: seq<byte>, y: nat, z: nat, n: nat, a: nat, k: nat)
    requires y + n <= |m| && z + n <= |m| && a + k <= |m| && (a + k <= z || z + n <= a)
    ensures Moved(m, y, z, n)[a..a + k] == m[a..a + k]
  {
    hide Put;
    if y != z { PutElsewhere(m, z, m[y..y + n], a, k); }
  }

  lemma GrownFrame(m: seq<byte>, x: nat, y: nat, z: nat, n: nat, cap: nat, data: nat)
    requires x + 16 <= |m| && y + n <= |m| && z + n <= |m|
    ensures var r := Grown(m, x, y, z, n, cap, data);
            && |r| == |m|
            && forall i :: 0 <= i < |m| && !(x <= i < x + 16) && (y == z || !(z <= i < z + n)) ==> r[i] == m[i]
  {
    hide Put, Word, Moved;
    var m1 := Put(m, x + 12, Word(cap, 4));
    PutFrame(m, x + 12, Word(cap, 4));
    PutFrame(Moved(m1, y, z, n), x, Word(data, 8));
    MovedFrame(m1, y, z, n);
  }

  lemma GrownReads(m: seq<byte>, x: nat, y: nat, z: nat, n: nat, cap: nat, data: nat)
    requires x + 16 <= |m| && y + n <= |m| && z + n <= |m|
    requires (x + 16 <= y || y + n <= x) && (x + 16 <= z || z + n <= x)
    ensures var r := Grown(m, x, y, z, n, cap, data);
            && |r| == |m|
            && r[x..x + 8] == Word(data, 8) && r[x + 8..x + 12] == m[x + 8..x + 12]
            && r[x + 12..x + 16] == Word(cap, 4) && r[z..z + n] == m[y..y + n]
  {
    hide Put, Word, Moved;
    var m1 := Put(m, x + 12, Word(cap, 4));
    var m2 := Moved(m1, y, z, n);
    MovedReads(m1, y, z, n);
    PutSlice(m, x + 12, Word(cap, 4));
    PutSlice(m2, x, Word(data, 8));
    PutElsewhere(m, x + 12, Word(cap, 4), y, n);
    PutElsewhere(m, x + 12, Word(cap, 4), x + 8, 4);
    PutElsewhere(m2, x, Word(data, 8), z, n);
    PutElsewhere(m2, x, Word(data, 8), x + 8, 4);
    PutElsewhere(m2, x, Word(data, 8), x + 12, 4);
    MovedElsewhere(m1, y, z, n, x + 8, 4);
    MovedElsewhere(m1, y, z, n, x + 12, 4);
  }

  lemma ArenaFacts(H: Heap)
    requires ArenaOk(H)
    ensures 0 < H.base && H.base % 8 == 0 && H.base + POOL_SIZE <= 0x8000_0000
    ensures |H.mem| == POOL_SIZE && H.off <= POOL_SIZE && H.off % 8 == 0
    ensures H.owner.Keys <= H.blocks.Keys
  {}

  lemma HeapArena(H: Heap)
    requires HeapOk(H)
    ensures ArenaOk(H)
  {}

  lemma HeapFacts(H: Heap, h: nat)
    requires HeapOk(H) && h in H.objs
    ensures ArenaOk(H) && Owns(H, h, h) && ObjOk(H, h, H.objs[h])
  {}

  lemma BlockFacts(H: Heap, b: nat)
    requires ArenaOk(H) && b in H.blocks
    ensures BlockOk(H, b)
  {}

  lemma ApartFacts(H: Heap, b: nat, c: nat)
    requires ArenaOk(H) && b in H.blocks && c in H.blocks && b != c
    ensures Apart(H, b, c)
  {}

  /** The blocks do not depend on the bytes and the owners. */
  lemma SameBlocks(H: Heap, H': Heap)
    requires ArenaOk(H)
    requires H'.base == H.base && H'.off == H.off && H'.blocks == H.blocks
    ensures BlocksInPlace(H') && BlocksApart(H')
  {
    hide BlocksInPlace, BlocksApart;
    forall b | b in H'.blocks ensures BlockOk(H', b) { BlockFacts(H, b); }
    InPlaceAll(H');
    forall b, c | b in H'.blocks && c in H'.blocks && b != c ensures Apart(H', b, c) { ApartFacts(H, b, c); }
    ApartAll(H');
  }

  /** Giving a block an owner does not disturb the arena. */
  lemma OwnedArena(H: Heap, b: nat, h: nat)
    requires ArenaOk(H) && b in H.blocks
    ensures ArenaOk(H.(owner := H.owner[b := h]))
  {
    hide BlocksInPlace, BlocksApart;
    SameBlocks(H, H.(owner := H.owner[b := h]));
  }

  lemma AlignMonotone(m: nat, n: nat)
    requires m <= n
    ensures Align8(m) <= Align8(n)
  {}

  function Wrote(H: Heap, a: nat, bs: seq<byte>): Heap
    requires InPool(H, a, |bs|)
  {
    H.(mem := Put(H.mem, a - H.base, bs))
  }

  /** Writing bytes does not disturb the bookkeeping. */
  lemma StoredArena(H: Heap, a: nat, bs: seq<byte>)
    requires ArenaOk(H) && InPool(H, a, |bs|)
    ensures ArenaOk(Wrote(H, a, bs))
  {
    hide BlocksInPlace, BlocksApart, Put;
    SameBlocks(H, Wrote(H, a, bs));
  }

  /** One more block behind the used prefix. */
  lemma ExtendArena(H: Heap, H': Heap, p: nat)
    requires ArenaOk(H) && p == H.base + H.off && H.off <= H'.off <= POOL_SIZE && H'.off % 8 == 0
    requires H' == H.(off := H'.off, blocks := H'.blocks)
    requires H'.blocks == H.blocks || (H'.blocks == H.blocks[p := H'.off - H.off] && H'.off > H.off)
    ensures ArenaOk(H') && p !in H.blocks
  {
    hide BlocksInPlace, BlocksApart, BlockOk, Apart;
    forall b | b in H.blocks ensures b != p { BehindAll(H, p, b); }
    forall b | b in H'.blocks ensures BlockOk(H', b) { ExtendBlock(H, H', p, b); }
    InPlaceAll(H');
    forall b, c | b in H'.blocks && c in H'.blocks && b != c ensures Apart(H', b, c) { ExtendApart(H, H', p, b, c); }
    ApartAll(H');
  }

  lemma BehindAll(H: Heap, p: nat, b: nat)
    requires ArenaOk(H) && p == H.base + H.off && b in H.blocks
    ensures b + H.blocks[b] <= p && b != p
  {
    hide ArenaOk;
    BlockFacts(H, b);
  }

  lemma ExtendBlock(H: Heap, H': Heap, p: nat, b: nat)
    requires ArenaOk(H) && p == H.base + H.off && H.off <= H'.off && H'.off % 8 == 0 && H'.base == H.base
    requires H'.blocks == H.blocks || (H'.blocks == H.blocks[p := H'.off - H.off] && H'.off > H.off)
    requires b in H'.blocks
    ensures BlockOk(H', b)
  {
    hide ArenaOk;
    ArenaFacts(H);
    if b in H.blocks { BehindAll(H, p, b); BlockFacts(H, b); }
  }

  lemma ExtendApart(H: Heap, H': Heap, p: nat, b: nat, c: nat)
    requires ArenaOk(H) && p == H.base + H.off && H.off <= H'.off
    requires H'.blocks == H.blocks || (H'.blocks == H.blocks[p := H'.off - H.off] && H'.off > H.off)
    requires b in H'.blocks && c in H'.blocks && b != c
    ensures Apart(H', b, c)
  {
    hide ArenaOk;
    if b in H.blocks { BehindAll(H, p, b); }
    if c in H.blocks { BehindAll(H, p, c); }
    if b in H.blocks && c in H.blocks { ApartFacts(H, b, c); }
  }

  lemma InPlaceAll(H: Heap)
    requires forall b :: b in H.blocks ==> BlockOk(H, b)
    ensures BlocksInPlace(H)
  {}

  lemma ApartAll(H: Heap)
    requires forall b, c {:trigger Apart(H, b, c)} :: b in H.blocks && c in H.blocks && b != c ==> Apart(H, b, c)
    ensures BlocksApart(H)
  {}

  /** The last block reaches further. */
  lemma GrowLast(H: Heap, H': Heap, p: nat)
    requires ArenaOk(H) && p in H.blocks && p + H.blocks[p] == H.base + H.off
    requires H.off <= H'.off <= POOL_SIZE && H'.off % 8 == 0
    requires H' == H.(off := H'.off, blocks := H.blocks[p := H.blocks[p] + H'.off - H.off])
    ensures ArenaOk(H')
  {
    hide BlocksInPlace, BlocksApart;
    forall b | b in H'.blocks ensures BlockOk(H', b) { BlockFacts(H, b); }
    InPlaceAll(H');
    forall b, c | b in H'.blocks && c in H'.blocks && b != c ensures Apart(H', b, c) { GrowLastApart(H, H', p, b, c); }
    ApartAll(H');
  }

  lemma GrowLastApart(H: Heap, H': Heap, p: nat, b: nat, c: nat)
    requires ArenaOk(H) && p in H.blocks && p + H.blocks[p] == H.base + H.off && H.off <= H'.off
    requires H' == H.(off := H'.off, blocks := H.blocks[p := H.blocks[p] + H'.off - H.off])
    requires b in H.blocks && c in H.blocks && b != c
    ensures Apart(H', b, c)
  {
    hide ArenaOk;
    BeforeLast(H, p, b);
    BeforeLast(H, p, c);
    ApartFacts(H, b, c);
  }

  lemma BeforeLast(H: Heap, p: nat, b: nat)
    requires ArenaOk(H) && p in H.blocks && p + H.blocks[p] == H.base + H.off && b in H.blocks
    ensures b != p ==> b + H.blocks[b] <= p
  {
    hide BlocksInPlace, BlocksApart;
    BlockFacts(H, p);
    BlockFacts(H, b);
    if b != p { ApartFacts(H, b, p); }
  }

  /** What can be read off the header of an object. */
  lemma ObjFacts(H: Heap, h: nat, o: Obj)
    requires ArenaOk(H) && Owns(H, h, h) && ObjOk(H, h, o) && !o.Raw?
    ensures InPool(H, h, HeaderSize(o)) && BlockOk(H, h) && H.blocks[h] == HeaderSize(o)
    ensures var d, cap, unit := DataOf(H, h), CapOf(H, h), UnitSize(o);
            && d != h && d != 0 && Owns(H, h, d) && BlockOk(H, d) && Apart(H, h, d)
            && H.blocks[d] == Align8(Span(cap, unit)) && 0 < Span(cap, unit) && InPool(H, d, Span(cap, unit))
            && LenOf(H, h) == Length(o) <= cap
            && |Contents(o)| <= Span(cap, unit) && Read(H, d, |Contents(o)|) == Contents(o)
  {
    SpanMonotone(1, CapOf(H, h), UnitSize(o));
    SpanNext(1, UnitSize(o));
  }

  /** The object `h` owns a block that can be exchanged for one of `newCap` units. */
  ghost predicate ReadyToGrow(H: Heap, h: nat, unit: nat, newCap: nat) {
    && InPool(H, h, 16)
    && var d, n := DataOf(H, h), Span(CapOf(H, h), unit);
       && d != 0 && d in H.blocks && H.blocks[d] == Align8(n) && InPool(H, d, n)
       && 0 < n <= Span(newCap, unit) <= MAX_REQUEST && Align8(n) <= H.off && (h + 16 <= d || d + 8 <= h)
  }

  lemma GrowReady(H: Heap, h: nat, newCap: nat, unit: nat)
    requires HeapOk(H) && h in H.objs && !H.objs[h].Raw? && unit == UnitSize(H.objs[h])
    requires InPool(H, h, 16) && CapOf(H, h) <= newCap && Span(newCap, unit) <= MAX_REQUEST
    ensures ArenaOk(H) && ReadyToGrow(H, h, unit, newCap)
  {
    hide HeapOk, ArenaOk, ObjOk, Contents, Span, Align8;
    HeapFacts(H, h);
    ArenaFacts(H);
    ObjFacts(H, h, H.objs[h]);
    SpanMonotone(CapOf(H, h), newCap, unit);
  }

  /** `H` after the object `h` was given room for `newCap` units at `data`. */
  function GrownTo(H: Heap, h: nat, data: nat, newCap: nat, unit: nat, newOff: nat): Heap
    requires InPool(H, h, 16) && InPool(H, DataOf(H, h), Span(CapOf(H, h), unit))
    requires InPool(H, data, Span(CapOf(H, h), unit))
  {
    H.(mem := Grown(H.mem, h - H.base, DataOf(H, h) - H.base, data - H.base, Span(CapOf(H, h), unit), newCap, data),
       off := newOff, blocks := H.blocks[data := Align8(Span(newCap, unit))], owner := H.owner[data := h],
       objs := if h in H.objs then H.objs[h := WithCap(H.objs[h], newCap)] else H.objs)
  }

  /** The steps by which an object grows: its new capacity is noted, its block exchanged, the new block's address
      and owner noted. */
  lemma GrownInSteps(H: Heap, h: nat, data: nat, newCap: nat, unit: nat, H1: Heap, H2: Heap, H3: Heap)
    requires InPool(H, h, 16) && InPool(H, DataOf(H, h), Span(CapOf(H, h), unit))
    requires InPool(H, data, Span(CapOf(H, h), unit)) && Align8(Span(CapOf(H, h), unit)) <= H.off
    requires H1 == Wrote(H, h + 12, Word(newCap, 4))
    requires H2 == Reallocated(H1, DataOf(H, h), data, Span(CapOf(H, h), unit), Span(newCap, unit))
    requires H3 == Wrote(H2.(owner := H2.owner[data := h]), h, Word(data, 8))
    ensures GrownTo(H, h, data, newCap, unit, H2.off) ==
            if h in H.objs then H3.(objs := H3.objs[h := WithCap(H.objs[h], newCap)]) else H3
  {
    hide Put, Word, Moved, Align8, Span, Value, WithCap;
  }

  /** The object `h` may be grown to `newCap` units at `data`. */
  ghost predicate CanGrow(H: Heap, h: nat, data: nat, newCap: nat, unit: nat, newOff: nat) {
    && HeapOk(H) && h in H.objs && !H.objs[h].Raw? && unit == UnitSize(H.objs[h])
    && InPool(H, h, 16) && CapOf(H, h) <= newCap < 0x8000_0000 && H.off <= newOff
    && InPool(H, DataOf(H, h), Span(CapOf(H, h), unit)) && InPool(H, data, Span(CapOf(H, h), unit))
    && (data == DataOf(H, h) || data == H.base + H.off)
  }

  lemma GrownShape(H: Heap, h: nat, data: nat, newCap: nat, unit: nat, newOff: nat)
    requires CanGrow(H, h, data, newCap, unit, newOff)
    ensures var H' := GrownTo(H, h, data, newCap, unit, newOff);
            H'.off == newOff && H'.objs == H.objs[h := WithCap(H.objs[h], newCap)]
  {}

  lemma CanGrowNow(H: Heap, h: nat, data: nat, newCap: nat, unit: nat, newOff: nat)
    requires HeapOk(H) && h in H.objs && !H.objs[h].Raw? && unit == UnitSize(H.objs[h])
    requires InPool(H, h, 16) && CapOf(H, h) <= newCap < 0x8000_0000
    requires data == DataOf(H, h) || (data == H.base + H.off && H.off + Align8(Span(newCap, unit)) <= POOL_SIZE)
    requires H.off <= newOff
    ensures CanGrow(H, h, data, newCap, unit, newOff)
  {
    hide HeapOk, ArenaOk, ObjOk, Contents, Span, Align8;
    HeapFacts(H, h);
    ArenaFacts(H);
    ObjFacts(H, h, H.objs[h]);
    SpanMonotone(CapOf(H, h), newCap, unit);
  }

  lemma SubRead(H: Heap, d: nat, n: nat, a: nat, k: nat)
    requires InPool(H, d, n) && d <= a && a + k <= d + n
    ensures InPool(H, a, k) && Read(H, a, k) == Read(H, d, n)[a - d..a - d + k]
  {}

  lemma ReadPrefix(H: Heap, a: nat, n: nat, k: nat)
    requires InPool(H, a, n) && k <= n
    ensures Read(H, a, k) == Read(H, a, n)[..k]
  {}

  lemma WithCapSame(o: Obj, cap: nat)
    requires !o.Raw?
    ensures var o' := WithCap(o, cap);
            && o'.Vec? == o.Vec? && !o'.Raw? && HeaderSize(o') == HeaderSize(o) && UnitSize(o') == UnitSize(o)
            && Length(o') == Length(o) && Contents(o') == Contents(o)
  {}

  /** What was in use outside the header of `h` still holds the same bytes. */
  ghost predicate KeptOutside(H: Heap, H': Heap, h: nat) {
    && H.base == H'.base && H.off <= H'.off <= |H.mem| == |H'.mem|
    && forall i :: 0 <= i < H.off && !(h <= H.base + i < h + 16) ==> H'.mem[i] == H.mem[i]
  }

  lemma KeptOff(H: Heap, H': Heap, h: nat)
    requires KeptOutside(H, H', h)
    ensures H.off <= H'.off
  {}

  lemma KeptRead(H: Heap, H': Heap, h: nat, a: nat, n: nat)
    requires KeptOutside(H, H', h) && H.base <= a && a + n <= H.base + H.off && (a + n <= h || h + 16 <= a)
    ensures InPool(H, a, n) && InPool(H', a, n) && Read(H', a, n) == Read(H, a, n)
  {}

  /** The header and the contents after growing. */
  lemma GrownFields(H: Heap, H': Heap, h: nat, data: nat, newCap: nat, unit: nat)
    requires CanGrow(H, h, data, newCap, unit, H'.off) && ArenaOk(H')
    requires H' == GrownTo(H, h, data, newCap, unit, H'.off)
    ensures DataOf(H', h) == data && CapOf(H', h) == newCap && LenOf(H', h) == LenOf(H, h)
    ensures var n := Span(CapOf(H, h), unit); Read(H', data, n) == Read(H, DataOf(H, h), n)
    ensures forall i :: 0 <= i < H.off && !(h <= H.base + i < h + 16) ==> H'.mem[i] == H.mem[i]
  {
    hide ObjOk, ArenaOk, Grown, Contents, Align8, Value, Word, Pow256, Span;
    var o := H.objs[h];
    ArenaFacts(H);
    ArenaFacts(H');
    ObjFacts(H, h, o);
    var x, y, z, n := h - H.base, DataOf(H, h) - H.base, data - H.base, Span(CapOf(H, h), unit);
    GrownReads(H.mem, x, y, z, n, newCap, data);
    GrownFrame(H.mem, x, y, z, n, newCap, data);
    Pow256Values();
    ValueOfWord(newCap, 4);
    ValueOfWord(data, 8);
  }

  lemma GrownTouches(H: Heap, H': Heap, h: nat, data: nat, newCap: nat, unit: nat)
    requires CanGrow(H, h, data, newCap, unit, H'.off) && ArenaOk(H')
    requires H' == GrownTo(H, h, data, newCap, unit, H'.off)
    ensures OnlyTouches(H, H', h)
  {
    hide ObjOk, ArenaOk, Grown, Contents, Align8, Span;
    ArenaFacts(H);
    ArenaFacts(H');
    ObjFacts(H, h, H.objs[h]);
    GrownFields(H, H', h, data, newCap, unit);
    forall b | b in H.blocks ensures b != H.base + H.off { BlockFacts(H, b); }
    forall i | 0 <= i < H.off && !InBlocksOf(H, h, H.base + i) ensures H'.mem[i] == H.mem[i] {
      assert Owns(H, h, h);
    }
    TouchedBytes(H, H', h);
  }

  /** After growing, the heap is in order and every object has the value it had. */
  lemma GrownOk(H: Heap, H': Heap, h: nat, data: nat, newCap: nat, unit: nat)
    requires CanGrow(H, h, data, newCap, unit, H'.off) && ArenaOk(H')
    requires H' == GrownTo(H, h, data, newCap, unit, H'.off)
    ensures HeapOk(H') && OnlyTouches(H, H', h) && Owns(H', h, h) && KeptOutside(H, H', h)
    ensures CapOf(H', h) == newCap && LenOf(H', h) == LenOf(H, h)
  {
    hide ArenaOk, Grown, Contents, Align8, OnlyTouches, Uniform, Value, Span;
    var o := H.objs[h];
    ArenaFacts(H);
    ArenaFacts(H');
    ObjFacts(H, h, o);
    BlockFacts(H, h);
    BlockFacts(H', h);
    BlockFacts(H', data);
    GrownFields(H, H', h, data, newCap, unit);
    GrownTouches(H, H', h, data, newCap, unit);
    var d, n, k := DataOf(H, h), Span(CapOf(H, h), unit), |Contents(o)|;
    SpanMonotone(CapOf(H, h), newCap, unit);
    ReadPrefix(H', data, n, k);
    ReadPrefix(H, d, n, k);
    assert KeptOutside(H, H', h);
    if o.Vec? { KeptRead(H, H', h, h + 16, 4); }
    WithCapSame(o, newCap);
    Replace(H, H', h, WithCap(o, newCap));
  }

  // ---------------------------------------------------------- appending to an object --

  /** `H'` is `H` after the contents and the length of the object `h` became those of `o`,
      with nothing written outside its length field and its data block. */
  ghost predicate Appended(H: Heap, H': Heap, h: nat, o: Obj)
    requires InPool(H, h, 16) && InPool(H', h, 16) && !o.Raw?
  {
    var d := DataOf(H, h);
    && H' == H.(mem := H'.mem, objs := H.objs[h := o]) && |H'.mem| == |H.mem|
    && d in H.blocks && InPool(H', d, |Contents(o)|)
    && LenOf(H', h) == Length(o) <= CapOf(H, h)
    && |Contents(o)| <= Span(CapOf(H, h), UnitSize(o))
    && Read(H', d, |Contents(o)|) == Contents(o)
    && forall i :: 0 <= i < |H.mem| && !(h + 8 <= H.base + i < h + 12) && !(d <= H.base + i < d + H.blocks[d])
                   ==> H'.mem[i] == H.mem[i]
  }

  /** The same kind of object: header layout and unit size do not change. */
  predicate SameShape(o: Obj, o': Obj) {
    match o
    case Str(_) => o'.Str?
    case Vec(size, cap, elems) =>
      o'.Vec? && o'.elemSize == size && o'.cap == cap && (Uniform(elems, size) ==> Uniform(o'.elems, size))
    case Raw(_) => false
  }

  /** The rest of the header is as it was. */
  lemma AppendKeeps(H: Heap, H': Heap, h: nat, o: Obj)
    requires HeapOk(H) && h in H.objs && SameShape(H.objs[h], o)
    requires InPool(H, h, 16) && InPool(H', h, 16) && Appended(H, H', h, o)
    ensures DataOf(H', h) == DataOf(H, h) && CapOf(H', h) == CapOf(H, h)
    ensures o.Vec? ==> InPool(H, h, 24) && InPool(H', h, 24) && Field(H', h + 16, 4) == Field(H, h + 16, 4)
  {
    hide HeapOk, ArenaOk, Contents, Align8, Uniform, Value, Span;
    HeapFacts(H, h);
    ArenaFacts(H);
    ObjFacts(H, h, H.objs[h]);
    ApartFacts(H, h, DataOf(H, h));
    assert Read(H', h, 8) == Read(H, h, 8);
    assert Read(H', h + 12, 4) == Read(H, h + 12, 4);
    if o.Vec? { assert Read(H', h + 16, 4) == Read(H, h + 16, 4); }
  }

  lemma AppendTouches(H: Heap, H': Heap, h: nat, o: Obj)
    requires HeapOk(H) && h in H.objs && SameShape(H.objs[h], o) && ArenaOk(H')
    requires InPool(H, h, 16) && InPool(H', h, 16) && Appended(H, H', h, o)
    ensures OnlyTouches(H, H', h)
  {
    hide HeapOk, ArenaOk, Contents, Align8, OnlyTouches, Uniform, Value, Span;
    HeapFacts(H, h);
    ArenaFacts(H);
    ObjFacts(H, h, H.objs[h]);
    forall i | 0 <= i < H.off && !InBlocksOf(H, h, H.base + i) ensures H'.mem[i] == H.mem[i] {
      assert Owns(H, h, h) && Owns(H, h, DataOf(H, h));
    }
    TouchedBytes(H, H', h);
  }

  /** Appending within the capacity gives `h` its new value and nothing else. */
  lemma AppendOk(H: Heap, H': Heap, h: nat, o: Obj)
    requires HeapOk(H) && h in H.objs && SameShape(H.objs[h], o)
    requires InPool(H, h, 16) && InPool(H', h, 16) && Appended(H, H', h, o)
    ensures HeapOk(H') && OnlyTouches(H, H', h)
  {
    hide HeapOk, ArenaOk, Contents, Align8, OnlyTouches, Uniform, Value, Span, BlocksInPlace, BlocksApart;
    var o0 := H.objs[h];
    HeapFacts(H, h);
    ArenaFacts(H);
    ObjFacts(H, h, o0);
    MemArena(H, H');
    BlockFacts(H', h);
    BlockFacts(H', DataOf(H, h));
    AppendKeeps(H, H', h, o);
    AppendTouches(H, H', h, o);
    Replace(H, H', h, o);
  }

  /** The bookkeeping does not depend on the bytes. */
  lemma MemArena(H: Heap, H': Heap)
    requires ArenaOk(H) && H' == H.(mem := H'.mem, objs := H'.objs) && |H'.mem| == |H.mem|
    ensures ArenaOk(H')
  {
    hide BlocksInPlace, BlocksApart;
    SameBlocks(H, H');
  }

  // ------------------------------------------------------------------- new objects --

  /** Two blocks behind the used prefix of `H` hold the header and the data of a new object. */
  ghost predicate Created(H: Heap, H': Heap, h: nat, o: Obj)
    requires !o.Raw? && InPool(H', h, HeaderSize(o))
  {
    var d, cap := DataOf(H', h), CapOf(H', h);
    && h == H.base + H.off && d == h + HeaderSize(o)
    && H'.base == H.base && H'.off == H.off + HeaderSize(o) + Align8(Span(cap, UnitSize(o)))
    && H.off <= |H.mem| == |H'.mem|
    && H'.blocks == H.blocks[h := HeaderSize(o)][d := Align8(Span(cap, UnitSize(o)))]
    && H'.owner == H.owner[h := h][d := h]
    && H'.objs == H.objs[h := o]
    && InPool(H', d, |Contents(o)|)
    && LenOf(H', h) == Length(o) <= cap
    && |Contents(o)| <= Span(cap, UnitSize(o)) && Read(H', d, |Contents(o)|) == Contents(o)
    && (o.Vec? ==> Field(H', h + 16, 4) == o.elemSize >= 1 && Uniform(o.elems, o.elemSize) && cap == o.cap >= 8)
    && forall i :: 0 <= i < H.off ==> H'.mem[i] == H.mem[i]
  }

  lemma CreateOk(H: Heap, H': Heap, h: nat, o: Obj)
    requires HeapOk(H) && ArenaOk(H') && !o.Raw? && InPool(H', h, HeaderSize(o)) && Created(H, H', h, o)
    ensures HeapOk(H') && h !in H.objs
  {
    hide ArenaOk, Contents, Align8, OnlyTouches, Uniform, Value, Span, BlocksInPlace, BlocksApart;
    ArenaFacts(H);
    ArenaFacts(H');
    var d := DataOf(H', h);
    forall b | b in H.blocks ensures b < h { BlockFacts(H, b); }
    BlockFacts(H', h);
    BlockFacts(H', d);
    TouchedBytes(H, H', h);
    Replace(H, H', h, o);
  }

  function CreatedMem(m: seq<byte>, x: nat, size: nat, len: nat, cap: nat, data: nat, bs: seq<byte>): (r: seq<byte>)
    requires 16 <= size && x + size + |bs| <= |m|
    ensures |r| == |m|
  {
    Put(Put(Put(Put(m, x + 8, Word(len, 4)), x + 12, Word(cap, 4)), x, Word(data, 8)), x + size, bs)
  }

  /** A fresh header at `x` followed by a data block at `x + size`: length, capacity, data
      address and contents, written in this order. */
  lemma CreatedReads(m: seq<byte>, x: nat, size: nat, len: nat, cap: nat, data: nat, bs: seq<byte>)
    requires 16 <= size && x + size + |bs| <= |m|
    ensures var r := CreatedMem(m, x, size, len, cap, data, bs);
            && r[x..x + 8] == Word(data, 8) && r[x + 8..x + 12] == Word(len, 4) && r[x + 12..x + 16] == Word(cap, 4)
            && r[x + size..x + size + |bs|] == bs
  {
    hide Put, Word;
    var m1 := Put(m, x + 8, Word(len, 4));
    var m2 := Put(m1, x + 12, Word(cap, 4));
    var m3 := Put(m2, x, Word(data, 8));
    PutSlice(m, x + 8, Word(len, 4));
    PutSlice(m1, x + 12, Word(cap, 4));
    PutSlice(m2, x, Word(data, 8));
    PutSlice(m3, x + size, bs);
    PutElsewhere(m1, x + 12, Word(cap, 4), x + 8, 4);
    PutElsewhere(m2, x, Word(data, 8), x + 8, 4);
    PutElsewhere(m2, x, Word(data, 8), x + 12, 4);
    PutElsewhere(m3, x + size, bs, x, 8);
    PutElsewhere(m3, x + size, bs, x + 8, 4);
    PutElsewhere(m3, x + size, bs, x + 12, 4);
  }

  lemma CreatedFrame(m: seq<byte>, x: nat, size: nat, len: nat, cap: nat, data: nat, bs: seq<byte>)
    requires 16 <= size && x + size + |bs| <= |m|
    ensures var r := CreatedMem(m, x, size, len, cap, data, bs);
            forall i :: 0 <= i < |m| && !(x <= i < x + 16) && !(x + size <= i < x + size + |bs|) ==> r[i] == m[i]
  {
    hide Put, Word;
    var m1 := Put(m, x + 8, Word(len, 4));
    var m2 := Put(m1, x + 12, Word(cap, 4));
    PutFrame(m, x + 8, Word(len, 4));
    PutFrame(m1, x + 12, Word(cap, 4));
    PutFrame(m2, x, Word(data, 8));
    PutFrame(Put(m2, x, Word(data, 8)), x + size, bs);
  }

  /** What a word field reads as after it was written. */
  lemma FieldIs(H: Heap, a: nat, v: nat, k: nat)
    requires InPool(H, a, k) && Read(H, a, k) == Word(v, k)
    requires (k == 4 && v < 0x1_0000_0000) || (k == 8 && v < 0x1_0000_0000_0000_0000)
    ensures Field(H, a, k) == v
  {
    Pow256Values();
    ValueOfWord(v, k);
  }

  /** `H` with a new header block behind its used prefix. */
  function WithHeader(H: Heap, size: nat, len: nat, cap: nat): Heap
    requires 16 <= size && InPool(H, H.base + H.off, size)
  {
    var h := H.base + H.off;
    H.(off := H.off + size, blocks := H.blocks[h := size],
       mem := Put(Put(H.mem, H.off + 8, Word(len, 4)), H.off + 12, Word(cap, 4)))
  }

  /** `H` with a new data block of `n` bytes for the object `h`. */
  function WithData(H: Heap, h: nat, n: nat): Heap
    requires InPool(H, h, 8)
  {
    var data := H.base + H.off;
    H.(off := H.off + Align8(n), blocks := H.blocks[data := Align8(n)], owner := H.owner[h := h][data := h],
       mem := Put(H.mem, h - H.base, Word(data, 8)))
  }

  /** `H` with a new string `text` behind its used prefix. */
  function WithStr(H: Heap, text: seq<byte>): Heap
    requires InPool(H, H.base + H.off, 16 + |text| + 1)
  {
    var h, n := H.base + H.off, |text| + 1;
    H.(mem := CreatedMem(H.mem, H.off, 16, |text|, n, h + 16, text + [0]), off := H.off + 16 + Align8(n),
       blocks := H.blocks[h := 16][h + 16 := Align8(n)], owner := H.owner[h := h][h + 16 := h],
       objs := H.objs[h := Str(text)])
  }

  lemma WithStrOk(H: Heap, text: seq<byte>)
    requires HeapOk(H) && H.off + 16 + Align8(|text| + 1) <= POOL_SIZE && |text| < 0x7FFF_FFFF
    requires InPool(H, H.base + H.off, 16 + |text| + 1) && ArenaOk(WithStr(H, text))
    ensures HeapOk(WithStr(H, text)) && H.base + H.off !in H.objs
  {
    hide HeapOk, ArenaOk, Align8, CreatedMem, Value, Word, Span;
    HeapArena(H);
    ArenaFacts(H);
    var H', h, n := WithStr(H, text), H.base + H.off, |text| + 1;
    CreatedReads(H.mem, H.off, 16, |text|, n, h + 16, text + [0]);
    CreatedFrame(H.mem, H.off, 16, |text|, n, h + 16, text + [0]);
    FieldIs(H', h, h + 16, 8);
    FieldIs(H', h + 8, |text|, 4);
    FieldIs(H', h + 12, n, 4);
    SpanNext(n, 1);
    CreateOk(H, H', h, Str(text));
  }

  /** A string's header and text as the operations read them. */
  lemma StrFacts(H: Heap, h: nat)
    requires HeapOk(H) && h in H.objs && H.objs[h].Str?
    ensures var text := H.objs[h].text;
            && InPool(H, h, 16) && LenOf(H, h) == |text| < CapOf(H, h) <= POOL_SIZE
            && InPool(H, DataOf(H, h), CapOf(H, h)) && Read(H, DataOf(H, h), |text| + 1) == text + [0]
  {
    hide ArenaOk, Align8, Value, Span;
    ArenaFacts(H);
    ObjFacts(H, h, H.objs[h]);
    SpanNext(CapOf(H, h), 1);
  }

  lemma TextRead(H: Heap, d: nat, text: seq<byte>)
    requires InPool(H, d, |text| + 1) && Read(H, d, |text| + 1) == text + [0]
    ensures Read(H, d, |text|) == text
  {
    assert Read(H, d, |text|) == Read(H, d, |text| + 1)[..|text|];
  }

  lemma NotYet(bs: seq<byte>, n: nat)
    requires n < |bs| && 0 !in bs[..n] && bs[n] != 0
    ensures 0 !in bs[..n + 1]
  {
    assert bs[..n + 1] == bs[..n] + [bs[n]];
  }

  lemma {:induction false} PrefixIsCString(bs: seq<byte>, n: nat)
    requires n <= |bs| && 0 !in bs[..n] && (n < |bs| ==> bs[n] == 0)
    ensures bs[..n] == CString(bs)
  {
    if n > 0 {
      assert bs[0] == bs[..n][0];
      assert bs[1..][..n - 1] == bs[..n][1..];
      PrefixIsCString(bs[1..], n - 1);
      assert bs[..n] == [bs[0]] + bs[1..][..n - 1];
    }
  }

  /** A C integer cast to `char`. */
  function Char(c: int): byte { c % 256 }

  function AppendedMem(m: seq<byte>, x: nat, y: nat, len: nat, bs: seq<byte>): (r: seq<byte>)
    requires x + 16 <= |m| && y + len + |bs| + 1 <= |m|
    ensures |r| == |m|
  {
    Put(Put(Put(m, y + len, bs), x + 8, Word(len + |bs|, 4)), y + len + |bs|, [0])
  }

  lemma AppendedReads(m: seq<byte>, x: nat, y: nat, len: nat, bs: seq<byte>)
    requires x + 16 <= |m| && y + len + |bs| + 1 <= |m| && (x + 16 <= y || y + len + |bs| + 1 <= x)
    ensures var r, n := AppendedMem(m, x, y, len, bs), len + |bs|;
            && r[x + 8..x + 12] == Word(n, 4) && r[y..y + n + 1] == m[y..y + len] + bs + [0]
  {
    hide Put, Word;
    var n := len + |bs|;
    var m1 := Put(m, y + len, bs);
    var m2 := Put(m1, x + 8, Word(n, 4));
    PutSlice(m, y + len, bs);
    PutSlice(m1, x + 8, Word(n, 4));
    PutSlice(m2, y + n, [0]);
    PutElsewhere(m, y + len, bs, y, len);
    PutElsewhere(m1, x + 8, Word(n, 4), y, len);
    PutElsewhere(m1, x + 8, Word(n, 4), y + len, |bs|);
    PutElsewhere(m2, y + n, [0], y, len);
    PutElsewhere(m2, y + n, [0], y + len, |bs|);
    PutElsewhere(m2, y + n, [0], x + 8, 4);
    ThreePieces(Put(m2, y + n, [0]), y, len, |bs|);
  }

  lemma AppendedFrame(m: seq<byte>, x: nat, y: nat, len: nat, bs: seq<byte>)
    requires x + 16 <= |m| && y + len + |bs| + 1 <= |m|
    ensures var r, n := AppendedMem(m, x, y, len, bs), len + |bs|;
            forall i :: 0 <= i < |m| && !(x + 8 <= i < x + 12) && !(y <= i < y + n + 1) ==> r[i] == m[i]
  {
    hide Put, Word;
    var n := len + |bs|;
    var m1 := Put(m, y + len, bs);
    PutFrame(m, y + len, bs);
    PutFrame(m1, x + 8, Word(n, 4));
    PutFrame(Put(m1, x + 8, Word(n, 4)), y + n, [0]);
  }

  lemma ThreePieces(r: seq<byte>, y: nat, a: nat, b: nat)
    requires y + a + b + 1 <= |r|
    ensures r[y..y + a + b + 1] == r[y..y + a] + r[y + a..y + a + b] + r[y + a + b..y + a + b + 1]
  {}

  /** The bytes of `bs` have been written behind the text of the string `h`. */
  ghost predicate TextWritten(H: Heap, H': Heap, h: nat, bs: seq<byte>)
    requires h in H.objs && H.objs[h].Str? && InPool(H, h, 16)
  {
    var text, d := H.objs[h].text, DataOf(H, h);
    && H.base <= d && d - H.base + |text| + |bs| + 1 <= |H.mem|
    && H' == H.(mem := AppendedMem(H.mem, h - H.base, d - H.base, |text|, bs), objs := H.objs[h := Str(text + bs)])
  }

  /** What reads differently then: the length field and the text with its terminator. */
  lemma TextReads(H: Heap, H': Heap, h: nat, bs: seq<byte>)
    requires h in H.objs && H.objs[h].Str? && InPool(H, h, 16) && TextWritten(H, H', h, bs)
    requires var text, d := H.objs[h].text, DataOf(H, h);
             && (h + 16 <= d || d + |text| + |bs| + 1 <= h) && |text| + |bs| < 0x8000_0000
             && Read(H, d, |text|) == text
    ensures var text, d := H.objs[h].text, DataOf(H, h);
            var n := |text| + |bs|;
            && |H'.mem| == |H.mem| && LenOf(H', h) == n && Read(H', d, n + 1) == text + bs + [0]
            && (forall i :: 0 <= i < |H.mem| && !(h + 8 <= H.base + i < h + 12) && !(d <= H.base + i < d + n + 1)
                            ==> H'.mem[i] == H.mem[i])
  {
    hide AppendedMem, Word, Value;
    var text, d := H.objs[h].text, DataOf(H, h);
    AppendedReads(H.mem, h - H.base, d - H.base, |text|, bs);
    AppendedFrame(H.mem, h - H.base, d - H.base, |text|, bs);
    FieldIs(H', h + 8, |text| + |bs|, 4);
  }

  lemma AppendedText(H: Heap, H': Heap, h: nat, bs: seq<byte>)
    requires HeapOk(H) && h in H.objs && H.objs[h].Str? && InPool(H, h, 16)
    requires |H.objs[h].text| + |bs| < CapOf(H, h) && TextWritten(H, H', h, bs)
    ensures InPool(H', h, 16) && Appended(H, H', h, Str(H.objs[h].text + bs))
  {
    hide HeapOk, ArenaOk, Align8, Span, AppendedMem, Word, Value;
    var text, d, cap := H.objs[h].text, DataOf(H, h), CapOf(H, h);
    HeapFacts(H, h);
    ArenaFacts(H);
    ObjFacts(H, h, H.objs[h]);
    StrFacts(H, h);
    SpanNext(cap, 1);
    TextRead(H, d, text);
    TextReads(H, H', h, bs);
  }

  lemma AppendTextOk(H: Heap, H': Heap, h: nat, bs: seq<byte>)
    requires HeapOk(H) && h in H.objs && H.objs[h].Str? && InPool(H, h, 16)
    requires |H.objs[h].text| + |bs| < CapOf(H, h) && TextWritten(H, H', h, bs)
    ensures HeapOk(H')
  {
    hide HeapOk, Appended, TextWritten;
    AppendedText(H, H', h, bs);
    AppendOk(H, H', h, Str(H.objs[h].text + bs));
  }

  function Signed(b: byte): int { if b < 128 then b else b - 256 }

  // -------------------------------------------------------------------- vectors --

  function WithVecHeader(H: Heap, elemSize: nat): Heap
    requires InPool(H, H.base + H.off, 24)
  {
    var h := H.base + H.off;
    H.(off := H.off + 24, blocks := H.blocks[h := 24],
       mem := Put(Put(Put(H.mem, H.off + 16, Word(elemSize, 4)), H.off + 8, Word(0, 4)), H.off + 12, Word(8, 4)))
  }

  /** `H` with a new empty vector behind its used prefix. */
  function WithVec(H: Heap, elemSize: nat): Heap
    requires InPool(H, H.base + H.off, 24)
  {
    var h, n := H.base + H.off, 8 * elemSize;
    H.(mem := Put(WithVecHeader(H, elemSize).mem, H.off, Word(h + 24, 8)), off := H.off + 24 + Align8(n),
       blocks := H.blocks[h := 24][h + 24 := Align8(n)], owner := H.owner[h := h][h + 24 := h],
       objs := H.objs[h := Vec(elemSize, 8, [])])
  }

  lemma VecReads(m: seq<byte>, x: nat, elemSize: nat, data: nat)
    requires x + 24 <= |m|
    ensures var r := Put(Put(Put(Put(m, x + 16, Word(elemSize, 4)), x + 8, Word(0, 4)), x + 12, Word(8, 4)), x,
            Word(data, 8));
            && r[x..x + 8] == Word(data, 8) && r[x + 8..x + 12] == Word(0, 4) && r[x + 12..x + 16] == Word(8, 4)
            && r[x + 16..x + 20] == Word(elemSize, 4)
            && (forall i :: 0 <= i < |m| && !(x <= i < x + 24) ==> r[i] == m[i])
  {
    hide Put, Word;
    var m0 := Put(m, x + 16, Word(elemSize, 4));
    var m1 := Put(m0, x + 8, Word(0, 4));
    var m2 := Put(m1, x + 12, Word(8, 4));
    PutSlice(m, x + 16, Word(elemSize, 4));
    PutSlice(m0, x + 8, Word(0, 4));
    PutSlice(m1, x + 12, Word(8, 4));
    PutSlice(m2, x, Word(data, 8));
    PutElsewhere(m0, x + 8, Word(0, 4), x + 16, 4);
    PutElsewhere(m1, x + 12, Word(8, 4), x + 16, 4);
    PutElsewhere(m1, x + 12, Word(8, 4), x + 8, 4);
    PutElsewhere(m2, x, Word(data, 8), x + 16, 4);
    PutElsewhere(m2, x, Word(data, 8), x + 8, 4);
    PutElsewhere(m2, x, Word(data, 8), x + 12, 4);
    PutFrame(m, x + 16, Word(elemSize, 4));
    PutFrame(m0, x + 8, Word(0, 4));
    PutFrame(m1, x + 12, Word(8, 4));
    PutFrame(m2, x, Word(data, 8));
  }

  lemma WithVecOk(H: Heap, elemSize: nat)
    requires HeapOk(H) && H.off + 24 + Align8(8 * elemSize) <= POOL_SIZE && 1 <= elemSize < 0x1000_0000
    requires InPool(H, H.base + H.off, 24) && ArenaOk(WithVec(H, elemSize))
    ensures HeapOk(WithVec(H, elemSize)) && H.base + H.off !in H.objs
  {
    hide HeapOk, ArenaOk, Align8, Value, Word, Put, Span;
    HeapArena(H);
    ArenaFacts(H);
    var H', h := WithVec(H, elemSize), H.base + H.off;
    VecReads(H.mem, H.off, elemSize, h + 24);
    FieldIs(H', h, h + 24, 8);
    FieldIs(H', h + 8, 0, 4);
    FieldIs(H', h + 12, 8, 4);
    FieldIs(H', h + 16, elemSize, 4);
    EightUnits(elemSize);
    CreateOk(H, H', h, Vec(elemSize, 8, []));
  }

  lemma EightUnits(size: nat)
    ensures Span(8, size) == 8 * size
  {}

  /** The space law of vectors: what a vector has cost so far is linear in its length. */
  ghost predicate Thrifty(objs: map<nat, Obj>, spent: map<nat, nat>) {
    forall v :: v in objs && objs[v].Vec? ==>
      var o := objs[v];
      && o.cap >= 8 && o.cap % 8 == 0 && (o.cap == 8 || o.cap < 2 * |o.elems|)
      && v in spent && spent[v] <= 24 + Span(2 * o.cap - 8, o.elemSize)
  }

  lemma ThriftyNew(objs: map<nat, Obj>, spent: map<nat, nat>, v: nat, elemSize: nat)
    requires Thrifty(objs, spent)
    ensures Thrifty(objs[v := Vec(elemSize, 8, [])], spent[v := 24 + Align8(8 * elemSize)])
  {}

  /** What pushing an element makes of a vector. */
  function Pushed(o: Obj, e: seq<byte>): Obj
    requires o.Vec?
  {
    Vec(o.elemSize, if |o.elems| < o.cap then o.cap else 2 * o.cap, o.elems + [e])
  }

  /** A vector's header and elements as the operations read them. */
  lemma VecFacts(H: Heap, v: nat)
    requires HeapOk(H) && v in H.objs && H.objs[v].Vec?
    ensures var o := H.objs[v];
            && InPool(H, v, 24) && v != 0 && LenOf(H, v) == |o.elems| <= o.cap == CapOf(H, v)
            && Field(H, v + 16, 4) == o.elemSize >= 1 && 8 <= o.cap <= POOL_SIZE
            && Span(2 * o.cap, o.elemSize) <= 2 * POOL_SIZE
            && DataOf(H, v) != 0 && InPool(H, DataOf(H, v), Span(o.cap, o.elemSize))
            && Uniform(o.elems, o.elemSize)
            && |Flatten(o.elems)| == Span(|o.elems|, o.elemSize) <= Span(o.cap, o.elemSize)
            && Read(H, DataOf(H, v), |Flatten(o.elems)|) == Flatten(o.elems)
            && (|o.elems| < o.cap ==> Span(|o.elems|, o.elemSize) + o.elemSize <= Span(o.cap, o.elemSize))
  {
    hide ArenaOk, Align8, Value, Flatten;
    var o := H.objs[v];
    ArenaFacts(H);
    ObjFacts(H, v, o);
    FlattenLength(o.elems, o.elemSize);
    SpanNext(|o.elems|, o.elemSize);
    if |o.elems| < o.cap { SpanMonotone(|o.elems| + 1, o.cap, o.elemSize); }
    DoubleSpan(o.cap, o.elemSize);
  }

  lemma DoubleSpan(n: nat, size: nat)
    ensures Span(2 * n, size) == 2 * Span(n, size)
    ensures size >= 1 ==> n <= Span(n, size)
  {
    assert 2 * n * size == 2 * (n * size);
    if size >= 1 { assert n * size >= n; }
  }

  lemma PushedReads(m: seq<byte>, x: nat, y: nat, k: nat, e: seq<byte>, len: nat)
    requires x + 16 <= |m| && y + k + |e| <= |m| && (x + 16 <= y || y + k + |e| <= x)
    ensures var r := Put(Put(m, y + k, e), x + 8, Word(len, 4));
            && r[x + 8..x + 12] == Word(len, 4) && r[y..y + k + |e|] == m[y..y + k] + e
            && (forall i :: 0 <= i < |m| && !(x + 8 <= i < x + 12) && !(y <= i < y + k + |e|) ==> r[i] == m[i])
  {
    hide Put, Word;
    var m1 := Put(m, y + k, e);
    var r := Put(m1, x + 8, Word(len, 4));
    PutSlice(m, y + k, e);
    PutSlice(m1, x + 8, Word(len, 4));
    PutFrame(m, y + k, e);
    PutFrame(m1, x + 8, Word(len, 4));
    PutElsewhere(m, y + k, e, y, k);
    PutElsewhere(m1, x + 8, Word(len, 4), y, k);
    PutElsewhere(m1, x + 8, Word(len, 4), y + k, |e|);
    assert r[y..y + k + |e|] == r[y..y + k] + r[y + k..y + k + |e|];
  }

  /** The element `e` has been written behind those of the vector `v`. */
  ghost predicate ElementWritten(H: Heap, H': Heap, v: nat, e: seq<byte>)
    requires v in H.objs && H.objs[v].Vec? && InPool(H, v, 24)
  {
    var o, d := H.objs[v], DataOf(H, v);
    var k := Span(|o.elems|, o.elemSize);
    && H.base <= d && d - H.base + k + |e| <= |H.mem|
    && H' == H.(mem := Put(Put(H.mem, d - H.base + k, e), v - H.base + 8, Word(|o.elems| + 1, 4)),
                objs := H.objs[v := o.(elems := o.elems + [e])])
  }

  /** What reads differently then: the length field and the contents. */
  lemma ElementReads(H: Heap, H': Heap, v: nat, e: seq<byte>)
    requires v in H.objs && H.objs[v].Vec? && InPool(H, v, 24) && ElementWritten(H, H', v, e)
    requires var o, d := H.objs[v], DataOf(H, v);
             var k := |Flatten(o.elems)|;
             && k == Span(|o.elems|, o.elemSize) && (v + 16 <= d || d + k + |e| <= v)
             && |o.elems| + 1 < 0x8000_0000 && Read(H, d, k) == Flatten(o.elems)
    ensures var o, d := H.objs[v], DataOf(H, v);
            var bs := Flatten(o.elems + [e]);
            && bs == Flatten(o.elems) + e
            && |H'.mem| == |H.mem| && LenOf(H', v) == |o.elems| + 1 && Read(H', d, |bs|) == bs
            && (forall i :: 0 <= i < |H.mem| && !(v + 8 <= H.base + i < v + 12) && !(d <= H.base + i < d + |bs|)
                            ==> H'.mem[i] == H.mem[i])
  {
    hide Put, Word, Value, Flatten, Span;
    var o, d := H.objs[v], DataOf(H, v);
    PushedReads(H.mem, v - H.base, d - H.base, |Flatten(o.elems)|, e, |o.elems| + 1);
    FlattenPush(o.elems, e);
    FieldIs(H', v + 8, |o.elems| + 1, 4);
  }

  lemma AppendedElement(H: Heap, H': Heap, v: nat, e: seq<byte>)
    requires HeapOk(H) && v in H.objs && H.objs[v].Vec? && InPool(H, v, 24)
    requires |H.objs[v].elems| < H.objs[v].cap && |e| == H.objs[v].elemSize && ElementWritten(H, H', v, e)
    ensures InPool(H', v, 16) && Appended(H, H', v, H.objs[v].(elems := H.objs[v].elems + [e]))
  {
    hide HeapOk, ArenaOk, ObjOk, Align8, Span, Put, Word, Value, Flatten, BlockOk;
    HeapFacts(H, v);
    ArenaFacts(H);
    ObjFacts(H, v, H.objs[v]);
    VecFacts(H, v);
    ElementReads(H, H', v, e);
  }

  lemma PushOk(H: Heap, H': Heap, v: nat, e: seq<byte>)
    requires HeapOk(H) && v in H.objs && H.objs[v].Vec? && InPool(H, v, 24)
    requires |H.objs[v].elems| < H.objs[v].cap && |e| == H.objs[v].elemSize && ElementWritten(H, H', v, e)
    ensures HeapOk(H')
  {
    hide HeapOk, Appended, ElementWritten;
    AppendedElement(H, H', v, e);
    AppendOk(H, H', v, H.objs[v].(elems := H.objs[v].elems + [e]));
  }

  lemma ElementAt(H: Heap, v: nat, i: nat, a: nat)
    requires HeapOk(H) && v in H.objs && H.objs[v].Vec? && i < |H.objs[v].elems| && InPool(H, v, 16)
    requires a == DataOf(H, v) + Span(i, H.objs[v].elemSize)
    ensures InPool(H, a, H.objs[v].elemSize) && Read(H, a, H.objs[v].elemSize) == H.objs[v].elems[i]
    ensures a + H.objs[v].elemSize <= DataOf(H, v) + Span(H.objs[v].cap, H.objs[v].elemSize)
  {
    hide HeapOk, Value, Flatten, Span;
    var o, d := H.objs[v], DataOf(H, v);
    VecFacts(H, v);
    FlattenAt(o.elems, o.elemSize, i);
    SubRead(H, d, |Flatten(o.elems)|, a, o.elemSize);
  }

  lemma ThriftyFacts(objs: map<nat, Obj>, spent: map<nat, nat>, v: nat)
    requires Thrifty(objs, spent) && v in objs && objs[v].Vec?
    ensures v in spent
  {}

  /** A push costs at most what the space law allows. */
  lemma ThriftyPush(objs: map<nat, Obj>, spent: map<nat, nat>, objs': map<nat, Obj>, spent': map<nat, nat>, v: nat,
                    cost: nat)
    requires Thrifty(objs, spent) && v in objs && objs[v].Vec? && |objs[v].elems| <= objs[v].cap && v in spent
    requires exists e :: objs' == objs[v := Pushed(objs[v], e)]
    requires spent' == spent[v := spent[v] + cost]
    requires var o := objs[v]; cost <= if |o.elems| < o.cap then 0 else Align8(Span(2 * o.cap, o.elemSize))
    ensures Thrifty(objs', spent')
  {
    hide Span, Align8;
    var o := objs[v];
    SpanSum(o.cap, o.elemSize);
  }

  lemma SpanSum(cap: nat, size: nat)
    requires cap >= 8 && cap % 8 == 0
    ensures Span(2 * cap - 8, size) + Align8(Span(2 * cap, size)) == Span(4 * cap - 8, size)
  {
    var n := cap / 8;
    assert 2 * cap * size == 8 * (2 * n * size);
    assert (2 * cap - 8) * size + 2 * cap * size == (4 * cap - 8) * size;
  }

  /** However the pushes and all other allocations interleave, a vector of `n` elements has
      taken at most 24 + max(8, 4n) * elemSize bytes of the arena. */
  lemma LinearSpace(objs: map<nat, Obj>, spent: map<nat, nat>, v: nat)
    requires Thrifty(objs, spent) && v in objs && objs[v].Vec?
    ensures var n, size := |objs[v].elems|, objs[v].elemSize;
            v in spent && spent[v] <= 24 + Span(if 4 * n < 8 then 8 else 4 * n, size)
  {
    var o := objs[v];
    SpanMonotone(2 * o.cap - 8, if 4 * |o.elems| < 8 then 8 else 4 * |o.elems|, o.elemSize);
  }

  // ------------------------------------------------------------------- raw blocks --

  lemma PageStart(at: nat)
    requires at % 4096 == 0
    ensures at % 8 == 0
  {
    EightfoldIsAligned(512 * (at / 4096));
  }

  lemma EightfoldIsAligned(k: nat)
    ensures 8 * k % 8 == 0
  {}

  lemma EmptyHeap(H: Heap)
    requires 0 < H.base && H.base % 4096 == 0 && H.base + POOL_SIZE <= 0x8000_0000 && |H.mem| == POOL_SIZE
    requires H.off == 0 && H.blocks == map[] && H.owner == map[] && H.objs == map[]
    ensures HeapOk(H) && Thrifty(H.objs, map[])
  {
    PageStart(H.base);
  }

  lemma RawOk(H: Heap, H': Heap, p: nat, bytes: seq<byte>)
    requires HeapOk(H) && ArenaOk(H') && p == H.base + H.off && 0 < |bytes| && H.off + Align8(|bytes|) <= POOL_SIZE
    requires InPool(H, p, |bytes|)
    requires H' == H.(off := H.off + Align8(|bytes|), blocks := H.blocks[p := Align8(|bytes|)],
                      mem := Put(H.mem, H.off, bytes), owner := H.owner[p := p], objs := H.objs[p := Raw(bytes)])
    ensures HeapOk(H') && p !in H.objs
  {
    hide ArenaOk, Align8, OnlyTouches, Put, BlocksInPlace, BlocksApart;
    ArenaFacts(H);
    PutSlice(H.mem, H.off, bytes);
    PutFrame(H.mem, H.off, bytes);
    forall b | b in H.blocks ensures b < p { BlockFacts(H, b); }
    BlockFacts(H', p);
    TouchedBytes(H, H', p);
    Replace(H, H', p, Raw(bytes));
  }

  lemma ThriftyRaw(objs: map<nat, Obj>, spent: map<nat, nat>, p: nat, bytes: seq<byte>)
    requires Thrifty(objs, spent)
    ensures Thrifty(objs[p := Raw(bytes)], spent)
  {}

  // ------------------------------------------------------------- handles and slots --

  /** Resolving is unambiguous. A place inside any block that is not the header of a
      string - a data block, a raw block such as the stack, the header of a vector - is
      never itself a string handle, so the handle stored there is what is meant. */
  lemma SlotIsNotHandle(H: Heap, s: nat, b: nat)
    requires HeapOk(H) && b in H.blocks && b <= s < b + H.blocks[b]
    requires !(b in H.objs && H.objs[b].Str?)
    ensures !(s in H.objs && H.objs[s].Str?)
  {
    hide ArenaOk, Align8;
    if s in H.objs && H.objs[s].Str? {
      HeapFacts(H, s);
      BlockFacts(H, s);
      ApartFacts(H, s, b);
    }
  }

  /** A handle kept anywhere inside an element of a vector resolves to the string it names. */
  lemma ElementResolves(H: Heap, v: nat, i: nat, k: nat, a: nat, h: nat)
    requires HeapOk(H) && v in H.objs && H.objs[v].Vec? && i < |H.objs[v].elems| && InPool(H, v, 16)
    requires k + 4 <= H.objs[v].elemSize == |H.objs[v].elems[i]| && a == DataOf(H, v) + Span(i, H.objs[v].elemSize) + k
    requires H.objs[v].elems[i][k..k + 4] == Word(h, 4) && h < 0x8000_0000
    ensures !(a in H.objs && H.objs[a].Str?) && InPool(H, a, 4) && Field(H, a, 4) == h
  {
    hide ArenaOk, Align8, Span, Word, Value, HeapOk, Field, Read;
    ElementPart(H, v, i, k, a);
    SlotInData(H, v, a);
    SlotIsNotHandle(H, a, DataOf(H, v));
    FieldIs(H, a, h, 4);
  }

  lemma ElementPart(H: Heap, v: nat, i: nat, k: nat, a: nat)
    requires HeapOk(H) && v in H.objs && H.objs[v].Vec? && i < |H.objs[v].elems| && InPool(H, v, 16)
    requires k + 4 <= H.objs[v].elemSize == |H.objs[v].elems[i]| && a == DataOf(H, v) + Span(i, H.objs[v].elemSize) + k
    ensures InPool(H, a, 4) && Read(H, a, 4) == H.objs[v].elems[i][k..k + 4]
    ensures DataOf(H, v) <= a && a + 4 <= DataOf(H, v) + Span(H.objs[v].cap, H.objs[v].elemSize)
  {
    hide HeapOk, Span, Value, Read;
    ElementAt(H, v, i, a - k);
    SubRead(H, a - k, H.objs[v].elemSize, a, 4);
  }

  lemma SlotInData(H: Heap, v: nat, a: nat)
    requires HeapOk(H) && v in H.objs && H.objs[v].Vec? && InPool(H, v, 16)
    requires DataOf(H, v) <= a && a + 4 <= DataOf(H, v) + Span(H.objs[v].cap, H.objs[v].elemSize)
    ensures var d := DataOf(H, v);
            d in H.blocks && d <= a < d + H.blocks[d] && !(d in H.objs && H.objs[d].Str?)
  {
    hide ArenaOk, Align8, Span, Value;
    ObjFacts(H, v, H.objs[v]);
    VecFacts(H, v);
  }
}
