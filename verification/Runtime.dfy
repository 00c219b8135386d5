/** The runtime: a bump arena with growth in place, strings and vectors on top of it. */
module Runtime {
  import opened Bytes
  import opened Registry
  import opened Heap
  import opened HeapSteps

  /** The mapped memory, with a mathematical copy of its bytes. */
  class Pool {
    const bytes: array<byte>
    ghost var mem: seq<byte>

    ghost predicate Valid()
      reads this, bytes
    {
      mem == bytes[..]
    }

    constructor ()
      ensures Valid() && |mem| == POOL_SIZE && fresh(bytes)
    {
      bytes := new byte[POOL_SIZE](i => 0);
      new;
      mem := bytes[..];
    }

    /** An assignment through a pointer, or a `memcpy` whose source was read before. */
    method Store(a: nat, bs: seq<byte>)
      requires Valid() && a + |bs| <= |mem|
      modifies this, bytes
      ensures Valid() && mem == Put(old(mem), a, bs)
    {
      forall i | 0 <= i < |bs| {
        bytes[a + i] := bs[i];
      }
      assert bytes[..] == Put(mem, a, bs);
      mem := bytes[..];
    }

    method Load(a: nat, n: nat) returns (bs: seq<byte>)
      requires Valid() && a + n <= |mem|
      ensures bs == mem[a..a + n]
    {
      return bytes[a..a + n];
    }
  }

  /** An element to be copied into a vector: at an address of the pool, or bytes somewhere else in memory. */
  datatype Item = At(addr: nat) | Elsewhere(bytes: seq<byte>)

  predicate IsItem(H: Heap, item: Item, n: nat) {
    match item
    case At(a) => InPool(H, a, n)
    case Elsewhere(bytes) => |bytes| == n
  }

  function ItemBytes(H: Heap, item: Item, n: nat): (bs: seq<byte>)
    requires IsItem(H, item, n)
    ensures |bs| == n
  {
    match item
    case At(a) => Read(H, a, n)
    case Elsewhere(bytes) => bytes
  }

  class Runtime {
    const pool: Pool
    const base: nat
    const table: HandleTable
    var off: nat
    ghost var blocks: map<nat, nat>
    ghost var owner: map<nat, nat>
    ghost var objs: map<nat, Obj>
    ghost var spent: map<nat, nat>   // arena bytes taken on behalf of each vector

    ghost function View(): Heap
      reads this, pool
    {
      Heap(base, pool.mem, off, blocks, owner, objs)
    }

    ghost predicate Separate()
      reads this
    {
      && pool as object != table && pool.bytes as object != table.cells as object
    }

    /** The arena is in order and its registered handles are exactly its strings. */
    ghost predicate Valid()
      reads this, pool, pool.bytes, table, table.cells
    {
      && Separate() && pool.Valid()
      && HeapOk(View())
      && table.Valid()
      && Thrifty(objs, spent)
      && (forall h :: h in table.Handles() <==> h in objs && objs[h].Str?)
    }

    /** An empty arena over the pool at `at`, which lies on a page in the low two gigabytes. */
    constructor (at: nat)
      requires 0 < at && at % 4096 == 0 && at + POOL_SIZE <= 0x8000_0000
      ensures Valid() && objs == map[] && off == 0 && base == at
      ensures fresh(pool) && fresh(pool.bytes) && fresh(table) && fresh(table.cells)
    {
      hide HeapOk, ArenaOk, HandleTable.Valid, Members, Thrifty;
      pool := new Pool();
      base := at;
      table := new HandleTable();
      off := 0;
      blocks, owner, objs, spent := map[], map[], map[], map[];
      new;
      EmptyHeap(View());
    }

    // ------------------------------------------------------------------ allocator --

    /** Hands out the next block. `ok` is false where the program exits, out of memory. */
    method YMalloc(size: nat) returns (ok: bool, ptr: nat)
      requires ArenaOk(View()) && size <= MAX_REQUEST
      modifies this`off, this`blocks
      ensures ok == (old(off) + Align8(size) <= POOL_SIZE)
      ensures ok ==> ArenaOk(View()) && ptr == base + old(off) && ptr !in old(blocks)
      ensures ok ==> View() == old(View()).(off := old(off) + Align8(size),
                       blocks := if size == 0 then old(blocks) else old(blocks)[ptr := Align8(size)])
      ensures !ok ==> View() == old(View())
    {
      hide ArenaOk, Field;
      ArenaFacts(View());
      var aligned := Align8(size);
      if off + aligned > POOL_SIZE {
        return false, 0;
      }
      ptr := base + off;
      ghost var H := View();
      off := off + aligned;
      if size > 0 {
        blocks := blocks[ptr := aligned];
      }
      ok := true;
      ExtendArena(H, View(), ptr);
    }

    method Store(a: nat, bs: seq<byte>)
      requires pool.Valid() && ArenaOk(View()) && InPool(View(), a, |bs|)
      modifies pool, pool.bytes
      ensures pool.Valid() && ArenaOk(View()) && View() == Wrote(old(View()), a, bs)
    {
      hide ArenaOk, Field;
      StoredArena(View(), a, bs);
      pool.Store(a - base, bs);
    }

    method StoreWord(a: nat, v: nat, k: nat)
      requires pool.Valid() && ArenaOk(View()) && InPool(View(), a, k)
      modifies pool, pool.bytes
      ensures pool.Valid() && ArenaOk(View()) && View() == Wrote(old(View()), a, Word(v, k))
    {
      Store(a, Word(v, k));
    }

    /** Ghost bookkeeping: the block `b` belongs to the object `h`. */
    ghost method Own(b: nat, h: nat)
      requires ArenaOk(View()) && b in blocks
      modifies this`owner
      ensures ArenaOk(View()) && View() == old(View()).(owner := old(owner)[b := h])
    {
      hide ArenaOk, Field;
      OwnedArena(View(), b, h);
      owner := owner[b := h];
    }

    /** Ghost bookkeeping: the object `h` has the value `o`. */
    ghost method Become(h: nat, o: Obj)
      requires ArenaOk(View())
      modifies this`objs
      ensures ArenaOk(View()) && View() == old(View()).(objs := old(objs)[h := o])
    {
      hide ArenaOk, Field;
      MemArena(View(), View().(objs := objs[h := o]));
      objs := objs[h := o];
    }

    method LoadWord(a: nat, k: nat) returns (v: nat)
      requires pool.Valid() && InPool(View(), a, k)
      ensures v == Field(View(), a, k)
    {
      var bs := Load(a, k);
      return Value(bs);
    }

    method Load(a: nat, n: nat) returns (bs: seq<byte>)
      requires pool.Valid() && InPool(View(), a, n)
      ensures bs == Read(View(), a, n)
    {
      bs := pool.Load(a - base, n);
    }

    /** Ghost bookkeeping: the last block, `ptr`, now reaches to the end of the used prefix. */
    ghost method ExtendLast(ptr: nat, alignedOld: nat, alignedNew: nat)
      requires alignedOld <= alignedNew <= off && ptr in blocks && blocks[ptr] == alignedOld && off <= POOL_SIZE
      requires off % 8 == 0 && ptr + alignedNew == base + off
      requires ArenaOk(View().(off := off - alignedNew + alignedOld))
      modifies this`blocks
      ensures ArenaOk(View()) && View() == old(View()).(blocks := old(blocks)[ptr := alignedNew])
    {
      hide ArenaOk, Field;
      ghost var H := View().(off := off - alignedNew + alignedOld);
      ArenaFacts(H);
      blocks := blocks[ptr := alignedNew];
      GrowLast(H, View(), ptr);
    }

    /** Grows a block, or hands out a first one for the null pointer. */
    method YRealloc(ptr: nat, oldSize: nat, newSize: nat) returns (ok: bool, r: nat)
      requires pool.Valid() && ArenaOk(View()) && newSize <= MAX_REQUEST
      requires ptr != 0 ==> ptr in blocks && blocks[ptr] == Align8(oldSize) && 0 < oldSize <= newSize
      requires ptr != 0 ==> InPool(View(), ptr, oldSize) && Align8(oldSize) <= off
      modifies this`off, this`blocks, pool, pool.bytes
      ensures ptr == 0 ==> ok == (old(off) + Align8(newSize) <= POOL_SIZE)
      ensures ptr != 0 ==>
              var spare := if IsLast(old(View()), ptr) then Align8(oldSize) else 0;
              ok == (old(off) + Align8(newSize) - spare <= POOL_SIZE)
      ensures ok && ptr != 0 ==>
              r == (if IsLast(old(View()), ptr) then ptr else base + old(off)) && InPool(View(), r, oldSize)
      ensures ok && ptr != 0 ==> (r in old(blocks) <==> IsLast(old(View()), ptr))
      ensures ok && ptr != 0 ==> View() == Reallocated(old(View()), ptr, r, oldSize, newSize)
      ensures ok ==> ArenaOk(View()) && pool.Valid()
    {
      if ptr == 0 {
        ok, r := YMalloc(newSize);
      } else {
        ok, r := ReallocBlock(ptr, oldSize, newSize);
      }
    }

    /** In place when the block is the last one and the pool suffices, otherwise by moving.
        A last block that does not fit in place cannot be moved either. */
    method ReallocBlock(ptr: nat, oldSize: nat, newSize: nat) returns (ok: bool, r: nat)
      requires pool.Valid() && ArenaOk(View()) && newSize <= MAX_REQUEST
      requires ptr in blocks && blocks[ptr] == Align8(oldSize) && 0 < oldSize <= newSize && InPool(View(), ptr, oldSize)
      requires Align8(oldSize) <= off
      modifies this`off, this`blocks, pool, pool.bytes
      ensures ok ==
              (old(off) + Align8(newSize) - (if IsLast(old(View()), ptr) then Align8(oldSize) else 0) <= POOL_SIZE)
      ensures ok ==> r == (if IsLast(old(View()), ptr) then ptr else base + old(off)) && InPool(View(), r, oldSize)
      ensures ok ==> (r in old(blocks) <==> IsLast(old(View()), ptr))
      ensures ok ==> View() == Reallocated(old(View()), ptr, r, oldSize, newSize)
      ensures ok ==> ArenaOk(View()) && pool.Valid()
    {
      hide ArenaOk, Align8, Put, Moved, Field;
      ArenaFacts(View());
      BlockFacts(View(), ptr);
      AlignMonotone(oldSize, newSize);
      var alignedOld, alignedNew := Align8(oldSize), Align8(newSize);
      if base + off - alignedOld == ptr {
        if off - alignedOld + alignedNew <= POOL_SIZE {
          off := off - alignedOld + alignedNew;
          ExtendLast(ptr, alignedOld, alignedNew);
          NotMoved(pool.mem, ptr - base, oldSize);
          return true, ptr;
        }
      }
      ok, r := Move(ptr, oldSize, newSize);
    }

    /** The three lines by which every container grows: note the old capacity, set the
        new one, reallocate. */
    method Reallocate(h: nat, unit: nat, newCap: nat) returns (ok: bool, data: nat)
      requires pool.Valid() && ArenaOk(View()) && ReadyToGrow(View(), h, unit, newCap)
      modifies this`off, this`blocks, this`owner, this`objs, pool, pool.bytes
      ensures ok || old(off) + Align8(Span(newCap, unit)) > POOL_SIZE
      ensures ok ==> pool.Valid() && ArenaOk(View()) && old(off) <= off <= old(off) + Align8(Span(newCap, unit))
      ensures ok ==>
              data == old(DataOf(View(), h))
                || (data == base + old(off) && off == old(off) + Align8(Span(newCap, unit)))
      ensures ok ==> InPool(View(), data, old(Span(CapOf(View(), h), unit)))
      ensures ok ==> View() == GrownTo(old(View()), h, data, newCap, unit, off)
    {
      hide ArenaOk, Align8, Put, Span, Value, Word, Moved, Field, GrownTo;
      ghost var H := View();
      ArenaFacts(H);
      var d := LoadWord(h, 8);
      var oldCap := LoadWord(h + 12, 4);
      StoreWord(h + 12, newCap, 4);
      ghost var H1 := View();
      AlignMonotone(Span(oldCap, unit), Span(newCap, unit));
      ok, data := YRealloc(d, Span(oldCap, unit), Span(newCap, unit));
      if ok {
        ghost var H2 := View();
        ArenaFacts(H2);
        Own(data, h);
        StoreWord(h, data, 8);
        GrownInSteps(H, h, data, newCap, unit, H1, H2, View());
        if h in objs { Become(h, WithCap(objs[h], newCap)); }
      }
    }

    /** Growing keeps the value of every object but for the new capacity, and all memory outside the header of `h`
        that was in use before. */
    method Grow(h: nat, unit: nat, newCap: nat) returns (ok: bool)
      requires pool.Valid() && HeapOk(View()) && h in objs && !objs[h].Raw? && unit == UnitSize(objs[h])
      requires InPool(View(), h, 16) && CapOf(View(), h) <= newCap < 0x8000_0000 && Span(newCap, unit) <= MAX_REQUEST
      modifies this`off, this`blocks, this`owner, this`objs, pool, pool.bytes
      ensures ok || old(off) + Align8(Span(newCap, unit)) > POOL_SIZE
      ensures ok ==> pool.Valid() && HeapOk(View()) && OnlyTouches(old(View()), View(), h) && Owns(View(), h, h)
      ensures ok ==> objs == old(objs)[h := WithCap(old(objs[h]), newCap)]
      ensures ok ==> InPool(View(), h, 16) && CapOf(View(), h) == newCap && LenOf(View(), h) == old(LenOf(View(), h))
      ensures ok ==> off <= old(off) + Align8(Span(newCap, unit)) && KeptOutside(old(View()), View(), h)
    {
      hide HeapOk, ArenaOk, ReadyToGrow, OnlyTouches, Span, CanGrow, Field, KeptOutside, Align8, GrownTo;
      ghost var H := View();
      GrowReady(H, h, newCap, unit);
      var data;
      ok, data := Reallocate(h, unit, newCap);
      if ok {
        ArenaFacts(View());
        CanGrowNow(H, h, data, newCap, unit, off);
        GrownShape(H, h, data, newCap, unit, off);
        GrownOk(H, View(), h, data, newCap, unit);
      }
    }

    /** A new block, and the old bytes copied into it. */
    method Move(ptr: nat, oldSize: nat, newSize: nat) returns (ok: bool, r: nat)
      requires pool.Valid() && ArenaOk(View()) && 0 < oldSize <= newSize <= MAX_REQUEST
      requires ptr in blocks && blocks[ptr] == Align8(oldSize) && InPool(View(), ptr, oldSize)
      modifies this`off, this`blocks, pool, pool.bytes
      ensures ok == (old(off) + Align8(newSize) <= POOL_SIZE)
      ensures ok ==> ArenaOk(View()) && pool.Valid()
      ensures ok ==> r == base + old(off) && r !in old(blocks) && InPool(View(), r, oldSize)
      ensures ok ==>
              View() == old(View()).(off := old(off) + Align8(newSize), blocks := old(blocks)[r := Align8(newSize)],
                                            mem := Moved(old(pool.mem), ptr - base, r - base, oldSize))
    {
      hide ArenaOk, Align8, Put, BlockOk, Field;
      ArenaFacts(View());
      ok, r := YMalloc(newSize);
      if ok {
        var bytes := Load(ptr, oldSize);
        Store(r, bytes);
      }
    }

    // -------------------------------------------------------------------- handles --

    ghost predicate IsStr(h: nat)
      reads this
    {
      h in objs && objs[h].Str?
    }

    ghost predicate IsVec(h: nat)
      reads this
    {
      h in objs && objs[h].Vec?
    }

    /** `s` is null, a string, or the address of a place that holds null or a string. While
        the table has an empty cell, looking for a pointer that is not in it ends. */
    ghost predicate Resolvable(s: nat)
      reads this, pool, table, table.cells
    {
      && s < 0x8000_0000
      && (HasEmpty(table.cells[..]) || IsStr(s))
      && (s == 0 || IsStr(s) || (InPool(View(), s, 4) && (Field(View(), s, 4) == 0 || IsStr(Field(View(), s, 4)))))
    }

    /** The string that a handle argument stands for, or null. */
    ghost function Target(s: nat): nat
      requires Resolvable(s)
      reads this, pool, table, table.cells
    {
      if s == 0 || IsStr(s) then s else Field(View(), s, 4)
    }

    method Resolve(s: nat) returns (h: nat)
      requires Valid() && Resolvable(s)
      ensures h == Target(s) && (h != 0 ==> IsStr(h))
    {
      hide HeapOk, Value, Members, HandleTable.Valid, Field;
      if s == 0 {
        return 0;
      }
      var registered := table.IsValid(s);
      if registered {
        return s;
      }
      h := LoadWord(s, 4);
    }

    // -------------------------------------------------------------------- strings --

    /** A header block with its length and capacity. */
    method NewHeader(size: nat, len: nat, cap: nat) returns (ok: bool, h: nat)
      requires pool.Valid() && ArenaOk(View()) && 16 <= size <= 24 && size % 8 == 0
      modifies this`off, this`blocks, pool, pool.bytes
      ensures ok == (old(off) + size <= POOL_SIZE)
      ensures ok ==> pool.Valid() && ArenaOk(View()) && h == base + old(off) && InPool(old(View()), h, size)
      ensures ok ==> View() == WithHeader(old(View()), size, len, cap)
    {
      hide ArenaOk, Align8, Put, Word, Field;
      ArenaFacts(View());
      ok, h := YMalloc(size);
      if ok {
        StoreWord(h + 8, len, 4);
        StoreWord(h + 12, cap, 4);
      }
    }

    /** A data block of `n` bytes, and its address in the header `h`. */
    method NewData(h: nat, n: nat) returns (ok: bool, data: nat)
      requires pool.Valid() && ArenaOk(View()) && h in blocks && InPool(View(), h, 8) && 0 < n <= MAX_REQUEST
      modifies this`off, this`blocks, this`owner, pool, pool.bytes
      ensures ok == (old(off) + Align8(n) <= POOL_SIZE)
      ensures ok ==> pool.Valid() && ArenaOk(View()) && data == base + old(off) && InPool(old(View()), data, n)
      ensures ok ==> View() == WithData(old(View()), h, n)
    {
      hide ArenaOk, Align8, Put, Word, Field;
      ArenaFacts(View());
      ok, data := YMalloc(n);
      if ok {
        StoreWord(h, data, 8);
        Own(h, h);
        Own(data, h);
      }
    }

    /** The stores that make a string, before it is registered. */
    method MakeStr(text: seq<byte>) returns (ok: bool, s: nat)
      requires pool.Valid() && ArenaOk(View()) && |text| < 0x7FFF_FFFF
      modifies this`off, this`blocks, this`owner, this`objs, pool, pool.bytes
      ensures ok == (old(off) + 16 + Align8(|text| + 1) <= POOL_SIZE)
      ensures ok ==> pool.Valid() && ArenaOk(View()) && s == base + old(off)
      ensures ok ==> InPool(old(View()), s, 16 + |text| + 1) && View() == WithStr(old(View()), text)
    {
      hide ArenaOk, Align8, Put, Word, Field;
      ArenaFacts(View());
      ok, s := NewHeader(16, |text|, |text| + 1);
      if ok {
        var data;
        ok, data := NewData(s, |text| + 1);
        if ok {
          Store(data, text + [0]);
          Become(s, Str(text));
        }
      }
    }

    /** A new string holding `text`: a header, then exactly enough room for text and terminator. */
    method YStrNew(text: seq<byte>) returns (ok: bool, s: nat)
      requires Valid() && 0 !in text && |text| < 0x7FFF_FFFF && HasEmpty(table.cells[..])
      modifies this`off, this`blocks, this`owner, this`objs, pool, pool.bytes, table.cells
      ensures ok == (old(off) + 16 + Align8(|text| + 1) <= POOL_SIZE)
      ensures ok ==> Valid() && s !in old(objs) && objs == old(objs)[s := Str(text)] && 0 < s < 0x8000_0000
      ensures ok ==> off == old(off) + 16 + Align8(|text| + 1)
    {
      hide HeapOk, ArenaOk, Align8, CreatedMem, Members, HandleTable.Valid, Field;
      ghost var H := View();
      HeapArena(H);
      ArenaFacts(H);
      ok, s := MakeStr(text);
      if ok {
        WithStrOk(H, text);
        table.Register(s);
      }
    }

    /** A copy of a string. The copy is made from the C string, so it stops at the first
        zero byte; it equals the original exactly when there is none. */
    method YStrClone(s: nat) returns (ok: bool, r: nat)
      requires Valid() && Resolvable(s) && HasEmpty(table.cells[..])
      modifies this`off, this`blocks, this`owner, this`objs, pool, pool.bytes, table.cells
      ensures var t := old(if Target(s) == 0 then [] else objs[Target(s)].text);
              && ok == (old(off) + 16 + Align8(|CString(t)| + 1) <= POOL_SIZE)
              && (ok ==> Valid() && r !in old(objs) && objs == old(objs)[r := Str(CString(t))])
    {
      hide HeapOk, ArenaOk, Align8, Members, HandleTable.Valid, Value, CString, Field;
      var src := Resolve(s);
      if src == 0 {
        ok, r := YStrNew([]);
        return;
      }
      var text := ReadCString(src);
      ok, r := YStrNew(text);
    }

    method ReadCString(h: nat) returns (text: seq<byte>)
      requires pool.Valid() && HeapOk(View()) && IsStr(h)
      ensures text == CString(objs[h].text) && |text| < 0x7FFF_FFFF
    {
      hide HeapOk, Value, CString, Field;
      ghost var H := View();
      HeapArena(H);
      ArenaFacts(H);
      StrFacts(H, h);
      var data := LoadWord(h, 8);
      var n := StrLen(data, |objs[h].text|);
      text := Load(data, n);
      TextRead(H, data, objs[h].text);
    }

    /** Scans for the terminator. `limit` bounds the scan: there is a zero byte after that many. */
    method StrLen(a: nat, ghost limit: nat) returns (n: nat)
      requires pool.Valid() && InPool(View(), a, limit + 1) && Read(View(), a, limit + 1)[limit] == 0
      ensures n <= limit && Read(View(), a, n) == CString(Read(View(), a, limit))
    {
      hide CString, Field, Value;
      ghost var all := Read(View(), a, limit + 1);
      n := 0;
      while true
        invariant n <= limit && 0 !in all[..n]
        decreases limit - n
      {
        var c := Load(a + n, 1);
        SubRead(View(), a, limit + 1, a + n, 1);
        assert c[0] == all[n];
        if c[0] == 0 {
          break;
        }
        NotYet(all, n);
        n := n + 1;
      }
      SubRead(View(), a, limit + 1, a, n);
      SubRead(View(), a, limit + 1, a, limit);
      assert all[..limit][..n] == all[..n];
      PrefixIsCString(all[..limit], n);
    }

    // ------------------------------------------------------------- growing strings --

    /** The stores that append `bs` to a string with room for it: bytes, length, terminator. */
    method AppendText(h: nat, bs: seq<byte>)
      requires pool.Valid() && HeapOk(View()) && IsStr(h)
      requires InPool(View(), h, 16) && |objs[h].text| + |bs| < CapOf(View(), h)
      modifies this`objs, pool, pool.bytes
      ensures pool.Valid() && HeapOk(View()) && objs == old(objs)[h := Str(old(objs[h].text) + bs)]
    {
      hide HeapOk, ArenaOk, Value, Word, Put, Field;
      ghost var H := View();
      HeapArena(H);
      ArenaFacts(H);
      StrFacts(H, h);
      var data := LoadWord(h, 8);
      var len := LoadWord(h + 8, 4);
      Store(data + len, bs);
      StoreWord(h + 8, len + |bs|, 4);
      Store(data + len + |bs|, [0]);
      Become(h, Str(objs[h].text + bs));
      AppendTextOk(H, View(), h, bs);
    }

    /** Appends one character, doubling the capacity when text and terminator would not fit. */
    method YStrPush(s: nat, c: int) returns (ok: bool)
      requires Valid() && Resolvable(s)
      modifies this`off, this`blocks, this`owner, this`objs, pool, pool.bytes
      ensures ok ==> Valid()
      ensures ok ==> var h := old(Target(s));
                     objs == if h == 0 then old(objs) else old(objs)[h := Str(old(objs[h].text) + [Char(c)])]
      ensures !ok ==> var h := old(Target(s));
                      && h != 0 && InPool(old(View()), h, 16)
                      && old(off) + Align8(2 * CapOf(old(View()), h)) > POOL_SIZE
    {
      hide HeapOk, ArenaOk, Align8, Members, HandleTable.Valid, Value, Field;
      var h := Resolve(s);
      if h == 0 {
        return true;
      }
      ReadText(h);
      ok := PushChar(h, Char(c));
    }

    method PushChar(h: nat, c: byte) returns (ok: bool)
      requires pool.Valid() && HeapOk(View()) && IsStr(h) && InPool(View(), h, 16)
      modifies this`off, this`blocks, this`owner, this`objs, pool, pool.bytes
      ensures ok ==> pool.Valid() && HeapOk(View()) && objs == old(objs)[h := Str(old(objs[h].text) + [c])]
      ensures ok || old(off) + Align8(2 * old(CapOf(View(), h))) > POOL_SIZE
    {
      hide HeapOk, ArenaOk, Align8, Value, Field;
      ok := true;
      HeapArena(View());
      ArenaFacts(View());
      StrFacts(View(), h);
      SpanNext(2 * CapOf(View(), h), 1);
      var len := LoadWord(h + 8, 4);
      var cap := LoadWord(h + 12, 4);
      if len + 1 >= cap {
        ok := Grow(h, 1, if cap == 0 then 8 else cap * 2);
        if !ok { return; }
      }
      AppendText(h, [c]);
    }

    /** Appends one string to another, or to itself. When the result and its terminator
        do not fit, the capacity becomes exactly what they need. */
    method YStrPushStr(s: nat, other: nat) returns (ok: bool)
      requires Valid() && Resolvable(s) && Resolvable(other)
      modifies this`off, this`blocks, this`owner, this`objs, pool, pool.bytes
      ensures ok ==> Valid()
      ensures ok ==> var h, o := old(Target(s)), old(Target(other));
                     objs == if h == 0 || o == 0 then old(objs)
                             else old(objs)[h := Str(old(objs[h].text) + old(objs[o].text))]
      ensures !ok ==> var h, o := old(Target(s)), old(Target(other));
                      h != 0 && o != 0 && old(off) + Align8(|old(objs[h].text)| + |old(objs[o].text)| + 1) > POOL_SIZE
    {
      hide HeapOk, ArenaOk, Align8, Members, HandleTable.Valid, Value, Field;
      var h := Resolve(s);
      var o := Resolve(other);
      if h == 0 || o == 0 {
        return true;
      }
      ok := Concatenate(h, o);
    }

    method Concatenate(h: nat, o: nat) returns (ok: bool)
      requires pool.Valid() && HeapOk(View()) && IsStr(h) && IsStr(o)
      modifies this`off, this`blocks, this`owner, this`objs, pool, pool.bytes
      ensures ok ==> pool.Valid() && HeapOk(View())
                     && objs == old(objs)[h := Str(old(objs[h].text) + old(objs[o].text))]
      ensures !ok ==> old(off) + Align8(|old(objs[h].text)| + |old(objs[o].text)| + 1) > POOL_SIZE
    {
      hide HeapOk, ArenaOk, Align8, Value, Field;
      ghost var H := View();
      HeapArena(H);
      ArenaFacts(H);
      StrFacts(H, h);
      StrFacts(H, o);
      var len := LoadWord(h + 8, 4);
      var otherLen := LoadWord(o + 8, 4);
      ok := ReserveText(h, len + otherLen);
      if ok {
        ReadText(o);
        var source := LoadWord(o, 8);
        var bytes := Load(source, otherLen);
        AppendText(h, bytes);
      }
    }

    /** Room for `n` characters and a terminator: exactly that much if there was less. */
    method ReserveText(h: nat, n: nat) returns (ok: bool)
      requires pool.Valid() && HeapOk(View()) && IsStr(h) && n < 0x7FFF_FFFF
      modifies this`off, this`blocks, this`owner, this`objs, pool, pool.bytes
      ensures ok ==> objs == old(objs)
      ensures ok ==> pool.Valid() && HeapOk(View()) && InPool(View(), h, 16) && n < CapOf(View(), h)
      ensures ok || old(off) + Align8(n + 1) > POOL_SIZE
    {
      hide HeapOk, ArenaOk, Align8, Value, Span, Field;
      ok := true;
      HeapArena(View());
      ArenaFacts(View());
      StrFacts(View(), h);
      SpanNext(n + 1, 1);
      var cap := LoadWord(h + 12, 4);
      if n >= cap {
        ok := Grow(h, 1, n + 1);
      }
    }

    ghost method ReadText(h: nat)
      requires HeapOk(View()) && IsStr(h)
      ensures var H, text := View(), objs[h].text;
              && InPool(H, h, 16) && LenOf(H, h) == |text|
              && InPool(H, DataOf(H, h), |text|) && Read(H, DataOf(H, h), |text|) == text
    {
      hide HeapOk, Value, Field;
      StrFacts(View(), h);
      TextRead(View(), DataOf(View(), h), objs[h].text);
    }

    // -------------------------------------------------------------- reading strings --

    method YStrLen(s: nat) returns (n: nat)
      requires Valid() && Resolvable(s)
      ensures n == if Target(s) == 0 then 0 else |objs[Target(s)].text|
    {
      hide HeapOk, Value, Members, HandleTable.Valid, Field;
      var h := Resolve(s);
      if h == 0 {
        return 0;
      }
      ReadText(h);
      n := LoadWord(h + 8, 4);
    }

    /** The character at an index as a signed `char`, or 0 outside the text. */
    method YStrCharAt(s: nat, idx: int) returns (c: int)
      requires Valid() && Resolvable(s)
      ensures c == if Target(s) != 0 && 0 <= idx < |objs[Target(s)].text| then Signed(objs[Target(s)].text[idx]) else 0
    {
      hide HeapOk, Value, Members, HandleTable.Valid, Field;
      var h := Resolve(s);
      if h == 0 {
        return 0;
      }
      ReadText(h);
      var len := LoadWord(h + 8, 4);
      if idx < 0 || idx >= len {
        return 0;
      }
      var data := LoadWord(h, 8);
      var b := Load(data + idx, 1);
      assert b[0] == Read(View(), data, len)[idx];
      return Signed(b[0]);
    }

    /** Two handles are equal strings, or both null. */
    method YStrEq(a: nat, b: nat) returns (eq: bool)
      requires Valid() && Resolvable(a) && Resolvable(b)
      ensures eq == if Target(a) == 0 || Target(b) == 0 then Target(a) == Target(b)
                    else objs[Target(a)].text == objs[Target(b)].text
    {
      hide HeapOk, Value, Members, HandleTable.Valid, Field;
      var x := Resolve(a);
      var y := Resolve(b);
      if x == 0 || y == 0 {
        return x == y;
      }
      eq := SameText(x, y);
    }

    method SameText(x: nat, y: nat) returns (eq: bool)
      requires pool.Valid() && HeapOk(View()) && IsStr(x) && IsStr(y)
      ensures eq == (objs[x].text == objs[y].text)
    {
      hide HeapOk, Value, Field;
      ReadText(x);
      ReadText(y);
      var n := LoadWord(x + 8, 4);
      var m := LoadWord(y + 8, 4);
      if n != m {
        return false;
      }
      var p := LoadWord(x, 8);
      var q := LoadWord(y, 8);
      var t := Load(p, n);
      var u := Load(q, n);
      return t == u;
    }

    // -------------------------------------------------------------------- vectors --

    /** An empty vector with room for eight elements. */
    method YVecNew(elemSize: nat) returns (ok: bool, v: nat)
      requires Valid() && 1 <= elemSize < 0x1000_0000
      modifies this`off, this`blocks, this`owner, this`objs, this`spent, pool, pool.bytes
      ensures ok == (old(off) + 24 + Align8(8 * elemSize) <= POOL_SIZE)
      ensures ok ==> Valid() && v !in old(objs) && objs == old(objs)[v := Vec(elemSize, 8, [])]
      ensures ok ==> off == old(off) + 24 + Align8(8 * elemSize) && spent == old(spent)[v := 24 + Align8(8 * elemSize)]
    {
      hide HeapOk, ArenaOk, Align8, CreatedMem, Members, HandleTable.Valid, Field, Thrifty;
      ghost var H := View();
      HeapArena(H);
      ArenaFacts(H);
      ok, v := MakeVec(elemSize);
      if ok {
        WithVecOk(H, elemSize);
        ThriftyNew(H.objs, spent, v, elemSize);
        spent := spent[v := 24 + Align8(8 * elemSize)];
      }
    }

    method MakeVec(elemSize: nat) returns (ok: bool, v: nat)
      requires pool.Valid() && ArenaOk(View()) && 1 <= elemSize < 0x1000_0000
      modifies this`off, this`blocks, this`owner, this`objs, pool, pool.bytes
      ensures ok == (old(off) + 24 + Align8(8 * elemSize) <= POOL_SIZE)
      ensures ok ==> pool.Valid() && ArenaOk(View()) && v == base + old(off)
      ensures ok ==> InPool(old(View()), v, 24) && View() == WithVec(old(View()), elemSize)
    {
      hide ArenaOk, Align8, Put, Word, Field;
      ArenaFacts(View());
      ok, v := NewVecHeader(elemSize);
      if ok {
        var data;
        ok, data := NewData(v, 8 * elemSize);
        if ok {
          Become(v, Vec(elemSize, 8, []));
        }
      }
    }

    method NewVecHeader(elemSize: nat) returns (ok: bool, h: nat)
      requires pool.Valid() && ArenaOk(View())
      modifies this`off, this`blocks, pool, pool.bytes
      ensures ok == (old(off) + 24 <= POOL_SIZE)
      ensures ok ==> pool.Valid() && ArenaOk(View()) && h == base + old(off) && InPool(old(View()), h, 24)
      ensures ok ==> View() == WithVecHeader(old(View()), elemSize)
    {
      hide ArenaOk, Align8, Put, Word, Field;
      ArenaFacts(View());
      ok, h := YMalloc(24);
      if ok {
        StoreWord(h + 16, elemSize, 4);
        StoreWord(h + 8, 0, 4);
        StoreWord(h + 12, 8, 4);
      }
    }

    /** The bytes of an element to be pushed can be read and copied. One in the pool does not overlap the place that
        it goes to; when the vector is full and grows first, the element lies in memory in use outside the
        header. It may be one of the vector's own elements. */
    ghost predicate Pushable(v: nat, item: Item)
      reads this, pool
    {
      && HeapOk(View()) && IsVec(v) && InPool(View(), v, 24)
      && var o, d := objs[v], DataOf(View(), v);
      var n, size := |o.elems|, o.elemSize;
      match item
      case Elsewhere(bytes) => |bytes| == size
      case At(a) =>
        && InPool(View(), a, size)
        && (a + size <= d + Span(n, size) || d + Span(if n < o.cap then n + 1 else n, size) <= a)
        && (n < o.cap || (a + size <= base + off && (a + size <= v || v + 24 <= a)))
    }

    /** Appends the element that `item` is, doubling the capacity of a full vector. */
    method YVecPush(v: nat, item: Item) returns (ok: bool)
      requires Valid() && (v != 0 ==> Pushable(v, item))
      modifies this`off, this`blocks, this`owner, this`objs, this`spent, pool, pool.bytes
      ensures ok ==> Valid()
      ensures v == 0 ==> ok && View() == old(View()) && spent == old(spent)
      ensures ok && v != 0 ==>
        var o := old(objs)[v];
        && IsItem(old(View()), item, o.elemSize)
        && objs == old(objs)[v := Pushed(o, ItemBytes(old(View()), item, o.elemSize))]
        && off >= old(off) && spent == old(spent)[v := old(spent)[v] + (off - old(off))]
      ensures !ok ==> old(off) + Align8(Span(2 * old(objs)[v].cap, old(objs)[v].elemSize)) > POOL_SIZE
    {
      hide HeapOk, ArenaOk, Align8, Members, HandleTable.Valid, Thrifty, Span, Field, ItemBytes, IsItem;
      if v == 0 {
        return true;
      }
      VecFacts(View(), v);
      ThriftyFacts(objs, spent, v);
      ok := PushElement(v, item);
      if ok {
        spent := spent[v := spent[v] + (off - old(off))];
        ThriftyPush(old(objs), old(spent), objs, spent, v, off - old(off));
      }
    }

    method PushElement(v: nat, item: Item) returns (ok: bool)
      requires pool.Valid() && Pushable(v, item)
      modifies this`off, this`blocks, this`owner, this`objs, pool, pool.bytes
      ensures ok ==> pool.Valid() && HeapOk(View()) && IsItem(old(View()), item, old(objs)[v].elemSize)
      ensures ok ==> var o := old(objs)[v]; objs == old(objs)[v := Pushed(o, ItemBytes(old(View()), item, o.elemSize))]
      ensures ok ==> var o := old(objs)[v];
                     old(off) <= off <= old(off)
                       + (if |o.elems| < o.cap then 0 else Align8(Span(2 * o.cap, o.elemSize)))
      ensures ok || old(off) + Align8(Span(2 * old(objs)[v].cap, old(objs)[v].elemSize)) > POOL_SIZE
    {
      hide HeapOk, ArenaOk, Align8, Value, Span, Field;
      ok := true;
      HeapArena(View());
      ArenaFacts(View());
      VecFacts(View(), v);
      var len := LoadWord(v + 8, 4);
      var cap := LoadWord(v + 12, 4);
      hide ItemBytes;
      if len >= cap {
        ok := DoubleVec(v, item);
        if !ok { return; }
      }
      StoreElement(v, item);
    }

    /** Twice the room. What the item's place holds does not change. */
    method DoubleVec(v: nat, ghost item: Item) returns (ok: bool)
      requires pool.Valid() && Pushable(v, item) && InPool(View(), v, 24) && |objs[v].elems| == objs[v].cap
      modifies this`off, this`blocks, this`owner, this`objs, pool, pool.bytes
      ensures ok ==> pool.Valid() && HeapOk(View())
      ensures ok ==> var o := old(objs)[v]; objs == old(objs)[v := o.(cap := 2 * o.cap)]
      ensures ok ==> var size := old(objs)[v].elemSize;
                     IsItem(old(View()), item, size) && IsItem(View(), item, size)
                     && ItemBytes(View(), item, size) == ItemBytes(old(View()), item, size)
      ensures ok ==> old(off) <= off <= old(off) + Align8(Span(2 * old(objs)[v].cap, old(objs)[v].elemSize))
      ensures ok || old(off) + Align8(Span(2 * old(objs)[v].cap, old(objs)[v].elemSize)) > POOL_SIZE
    {
      hide HeapOk, ArenaOk, Align8, Value, Span, Field;
      HeapArena(View());
      ArenaFacts(View());
      VecFacts(View(), v);
      var cap := LoadWord(v + 12, 4);
      var elemSize := LoadWord(v + 16, 4);
      hide KeptOutside, Field;
      ghost var H := View();
      ok := Grow(v, elemSize, cap * 2);
      if ok {
        if item.At? { KeptRead(H, View(), v, item.addr, elemSize); }
        KeptOff(H, View(), v);
      }
    }

    /** The bytes of an element. */
    method LoadItem(item: Item, n: nat) returns (bs: seq<byte>)
      requires pool.Valid() && IsItem(View(), item, n)
      ensures bs == ItemBytes(View(), item, n)
    {
      match item {
        case At(a) => bs := Load(a, n);
        case Elsewhere(bytes) => bs := bytes;
      }
    }

    /** The stores of a push into a vector with room. */
    method StoreElement(v: nat, item: Item)
      requires pool.Valid() && HeapOk(View()) && IsVec(v) && |objs[v].elems| < objs[v].cap
      requires IsItem(View(), item, objs[v].elemSize)
      modifies this`objs, pool, pool.bytes
      ensures pool.Valid() && HeapOk(View())
      ensures var o := old(objs)[v];
              objs == old(objs)[v := o.(elems := o.elems + [old(ItemBytes(View(), item, objs[v].elemSize))])]
    {
      hide HeapOk, ArenaOk, Align8, Value, Span, Put, Word, Field, ItemBytes, IsItem;
      ghost var H := View();
      HeapArena(H);
      ArenaFacts(H);
      VecFacts(H, v);
      var len := LoadWord(v + 8, 4);
      var elemSize := LoadWord(v + 16, 4);
      var data := LoadWord(v, 8);
      var e := LoadItem(item, elemSize);
      Store(data + Span(len, elemSize), e);
      StoreWord(v + 8, len + 1, 4);
      Become(v, objs[v].(elems := objs[v].elems + [e]));
      PushOk(H, View(), v, e);
    }

    /** The address of an element, or null for an index outside the vector. */
    method YVecGet(v: nat, idx: int) returns (a: nat)
      requires Valid() && (v != 0 ==> IsVec(v))
      ensures v == 0 || !(0 <= idx < |objs[v].elems|) ==> a == 0
      ensures v != 0 && 0 <= idx < |objs[v].elems| ==>
                a != 0 && InPool(View(), a, objs[v].elemSize) && Read(View(), a, objs[v].elemSize) == objs[v].elems[idx]
    {
      hide HeapOk, ArenaOk, Value, Span, HandleTable.Valid, Field;
      if v == 0 {
        return 0;
      }
      VecFacts(View(), v);
      var len := LoadWord(v + 8, 4);
      if idx < 0 || idx >= len {
        return 0;
      }
      var data := LoadWord(v, 8);
      var elemSize := LoadWord(v + 16, 4);
      a := data + Span(idx, elemSize);
      ElementAt(View(), v, idx, a);
    }

    method YVecLen(v: nat) returns (n: nat)
      requires Valid() && (v != 0 ==> IsVec(v))
      ensures n == if v == 0 then 0 else |objs[v].elems|
    {
      hide HeapOk, ArenaOk, Value, Span, HandleTable.Valid, Field;
      if v == 0 {
        return 0;
      }
      VecFacts(View(), v);
      n := LoadWord(v + 8, 4);
    }

    // ------------------------------------------------------------- all other memory --

    /** A block without a header, such as the stack of the program, filled with `bytes`. */
    method AllocRaw(bytes: seq<byte>) returns (ok: bool, p: nat)
      requires Valid() && 0 < |bytes| <= MAX_REQUEST
      modifies this`off, this`blocks, this`owner, this`objs, pool, pool.bytes
      ensures ok == (old(off) + Align8(|bytes|) <= POOL_SIZE)
      ensures ok ==> Valid() && p !in old(objs) && objs == old(objs)[p := Raw(bytes)]
    {
      hide HeapOk, ArenaOk, Align8, Members, HandleTable.Valid, Value, Put, Thrifty;
      ghost var H := View();
      HeapArena(H);
      ArenaFacts(H);
      ok, p := YMalloc(|bytes|);
      if ok {
        ArenaFacts(View());
        Store(p, bytes);
        Own(p, p);
        Become(p, Raw(bytes));
        RawOk(H, View(), p, bytes);
        ThriftyRaw(old(objs), spent, p, bytes);
      }
    }
  }
}
