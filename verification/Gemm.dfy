/** The tiled, masked matrix kernel with fused bias and ReLU, over exact arithmetic: each
    program of the grid computes one tile, and together they compute the plain triple loop. */
module Gemm {

  /** Sizes, strides and block sizes, as the kernel gets them. */
  datatype Shape = Shape(
    m: nat, n: nat, k: nat,
    strideAm: nat, strideAk: nat, strideBk: nat, strideBn: nat, strideCm: nat, strideCn: nat,
    blockM: nat, blockN: nat, blockK: nat)

  // -------------------------------------------------------------------- addresses --

  function Addr(i: nat, stride: nat, j: nat, step: nat): nat { i * stride + j * step }

  /** Every cell of a matrix lies in a memory of `size` cells. */
  ghost predicate Fits(rows: nat, cols: nat, stride: nat, step: nat, size: nat) {
    forall i: nat, j: nat :: i < rows && j < cols ==> Addr(i, stride, j, step) < size
  }

  /** No two cells of a matrix share an address. */
  ghost predicate Separate(rows: nat, cols: nat, stride: nat, step: nat) {
    forall i: nat, j: nat, i': nat, j': nat ::
      i < rows && j < cols && i' < rows && j' < cols && Addr(i, stride, j, step) == Addr(i', stride, j', step)
      ==> i == i' && j == j'
  }

  lemma TimesMonotone(a: int, b: int, c: nat)
    requires a <= b
    ensures a * c <= b * c
  {}

  lemma Quotient(q: int, r: int, q': int, r': int, d: nat)
    requires 0 <= r < d && 0 <= r' < d && q * d + r == q' * d + r'
    ensures q == q' && r == r'
  {
    if q < q' {
      TimesMonotone(q + 1, q', d);
    } else if q' < q {
      TimesMonotone(q' + 1, q, d);
    }
  }

  lemma DivMod(q: nat, r: nat, d: nat)
    requires r < d
    ensures (q * d + r) / d == q && (q * d + r) % d == r
  {
    var x := q * d + r;
    Quotient(q, r, x / d, x % d, d);
  }

  /** A row-major matrix has both properties. */
  lemma RowMajor(rows: nat, cols: nat)
    ensures Fits(rows, cols, cols, 1, rows * cols) && Separate(rows, cols, cols, 1)
  {
    forall i: nat, j: nat | i < rows && j < cols ensures Addr(i, cols, j, 1) < rows * cols {
      TimesMonotone(i + 1, rows, cols);
    }
    forall i: nat, j: nat, i': nat, j': nat
      | i < rows && j < cols && i' < rows && j' < cols && Addr(i, cols, j, 1) == Addr(i', cols, j', 1)
      ensures i == i' && j == j'
    {
      Quotient(i, j, i', j', cols);
    }
  }

  function CeilDiv(a: nat, b: nat): nat
    requires b > 0
  {
    (a + b - 1) / b
  }

  lemma CeilDivCovers(a: nat, b: nat)
    requires b > 0
    ensures a <= CeilDiv(a, b) * b < a + b
  {}

  lemma DivBelow(x: nat, b: nat, c: nat)
    requires b > 0 && x < c * b
    ensures x / b < c
  {
    if c <= x / b {
      TimesMonotone(c, x / b, b);
    }
  }

  // ------------------------------------------------------------------ the triple loop --

  function Max(x: real, y: real): real { if x < y then y else x }

  ghost predicate MatricesFit(sh: Shape, a: seq<real>, b: seq<real>) {
    Fits(sh.m, sh.k, sh.strideAm, sh.strideAk, |a|) && Fits(sh.k, sh.n, sh.strideBk, sh.strideBn, |b|)
  }

  /** The sum of the products at `0 .. len` of row `r` of A and column `c` of B. */
  ghost function Dot(sh: Shape, a: seq<real>, b: seq<real>, r: nat, c: nat, len: nat): real
    requires MatricesFit(sh, a, b) && r < sh.m && c < sh.n && len <= sh.k
  {
    if len == 0 then 0.0
    else Dot(sh, a, b, r, c, len - 1)
         + a[Addr(r, sh.strideAm, len - 1, sh.strideAk)] * b[Addr(len - 1, sh.strideBk, c, sh.strideBn)]
  }

  /** One more product, as long as there is one. */
  lemma DotNext(sh: Shape, a: seq<real>, b: seq<real>, r: nat, c: nat, k: nat)
    requires MatricesFit(sh, a, b) && r < sh.m && c < sh.n
    requires k < sh.k ==> Addr(r, sh.strideAm, k, sh.strideAk) < |a| && Addr(k, sh.strideBk, c, sh.strideBn) < |b|
    ensures Dot(sh, a, b, r, c, Min(sh.k, k + 1)) ==
            Dot(sh, a, b, r, c, Min(sh.k, k))
            + if k < sh.k then a[Addr(r, sh.strideAm, k, sh.strideAk)] * b[Addr(k, sh.strideBk, c, sh.strideBn)]
              else 0.0
  {
    hide Addr, Fits;
  }

  /** What belongs in cell `r, c` of the result. */
  ghost function Cell(sh: Shape, a: seq<real>, b: seq<real>, bias: seq<real>, r: nat, c: nat): real
    requires MatricesFit(sh, a, b) && sh.n <= |bias| && r < sh.m && c < sh.n
  {
    Max(Dot(sh, a, b, r, c, sh.k) + bias[c], 0.0)
  }

  // --------------------------------------------------------------------- the kernel --

  /** A load under a mask: where the mask is off nothing is accessed and `0` comes back. */
  function Load(mem: seq<real>, at: int, mask: bool): real
    requires mask ==> 0 <= at < |mem|
  {
    if mask then mem[at] else 0.0
  }

  /** Every access that the mask of the inner dimension lets through stays inside its matrix. */
  lemma LoadsInside(sh: Shape, a: seq<real>, b: seq<real>, row: nat, col: nat, k0: nat, kk: nat)
    requires row < sh.m && col < sh.n && MatricesFit(sh, a, b)
    ensures Addr(row, sh.strideAm, kk, sh.strideAk) + k0 * sh.strideAk == Addr(row, sh.strideAm, k0 + kk, sh.strideAk)
    ensures Addr(kk, sh.strideBk, col, sh.strideBn) + k0 * sh.strideBk == Addr(k0 + kk, sh.strideBk, col, sh.strideBn)
    ensures kk < sh.k - k0 ==> Addr(row, sh.strideAm, k0 + kk, sh.strideAk) < |a|
    ensures kk < sh.k - k0 ==> Addr(k0 + kk, sh.strideBk, col, sh.strideBn) < |b|
  {
    assert (k0 + kk) * sh.strideAk == k0 * sh.strideAk + kk * sh.strideAk;
    assert (k0 + kk) * sh.strideBk == k0 * sh.strideBk + kk * sh.strideBk;
  }

  function Min(x: int, y: int): int { if x < y then x else y }

  lemma SmallRemainder(x: nat, size: nat)
    requires size > 0
    ensures x < size ==> x % size == x
  {
    if x < size {
      DivMod(0, x, size);
    }
  }

  /** The row of A, or column of B, behind place `i` of tile number `tile`: past the end it wraps around. */
  function Wrapped(tile: nat, block: nat, i: nat, size: nat): (at: nat)
    requires size > 0
    ensures at < size && (tile * block + i < size ==> at == tile * block + i)
  {
    SmallRemainder(tile * block + i, size);
    (tile * block + i) % size
  }

  function GridWidth(sh: Shape): nat
    requires sh.blockN > 0
  {
    CeilDiv(sh.n, sh.blockN)
  }

  function GridSize(sh: Shape): nat
    requires sh.blockM > 0 && sh.blockN > 0
  {
    CeilDiv(sh.m, sh.blockM) * GridWidth(sh)
  }

  /** Place `j` of row `i`, rows being `width` long. */
  function Place(i: nat, width: nat, j: nat): nat { i * width + j }

  /** The program whose tile contains cell `r, c`. */
  function Owner(sh: Shape, r: nat, c: nat): nat
    requires sh.blockM > 0 && sh.blockN > 0
  {
    Place(r / sh.blockM, GridWidth(sh), c / sh.blockN)
  }

  lemma OwnerInGrid(sh: Shape, r: nat, c: nat)
    requires sh.blockM > 0 && sh.blockN > 0 && r < sh.m && c < sh.n
    ensures c / sh.blockN < GridWidth(sh) && Owner(sh, r, c) < GridSize(sh)
  {
    CeilDivCovers(sh.n, sh.blockN);
    CeilDivCovers(sh.m, sh.blockM);
    hide CeilDiv;
    DivBelow(c, sh.blockN, GridWidth(sh));
    DivBelow(r, sh.blockM, CeilDiv(sh.m, sh.blockM));
    TimesMonotone(r / sh.blockM + 1, CeilDiv(sh.m, sh.blockM), GridWidth(sh));
  }

  /** Every cell has an owner in the grid, and the split of a program number leads back to exactly its cells. */
  lemma OwnerUnique(sh: Shape, r: nat, c: nat)
    requires sh.blockM > 0 && sh.blockN > 0 && r < sh.m && c < sh.n
    ensures Owner(sh, r, c) < GridSize(sh) && GridWidth(sh) > 0
    ensures forall pid: nat :: pid / GridWidth(sh) == r / sh.blockM && pid % GridWidth(sh) == c / sh.blockN
                          <==> pid == Owner(sh, r, c)
  {
    OwnerInGrid(sh, r, c);
    hide GridSize, GridWidth;
    DivMod(r / sh.blockM, c / sh.blockN, GridWidth(sh));
  }

  /** Place `x` of a range is place `x - tile * block` of tile number `tile`, for one tile only. */
  lemma InTile(x: nat, block: nat, tile: nat)
    requires block > 0
    ensures x / block == tile <==> tile * block <= x < tile * block + block
  {
    if tile * block <= x < tile * block + block {
      DivMod(tile, x - tile * block, block);
    }
  }

  // --------------------------------------------------------------------- the result --

  /** Memory with the result matrix in it; `stores` counts how often each cell of memory was written. */
  class Output {
    const data: array<real>
    ghost var stores: seq<nat>

    constructor (data: array<real>)
      ensures this.data == data && Valid() && stores == seq(data.Length, _ => 0)
    {
      this.data := data;
      stores := seq(data.Length, _ => 0);
    }

    ghost predicate Valid()
      reads this
    {
      |stores| == data.Length
    }

    ghost function View(): seq<(real, nat)>
      requires Valid()
      reads this, data
    {
      seq(data.Length, i requires 0 <= i < data.Length && i < |stores| reads this, data => (data[i], stores[i]))
    }

    method Store(at: nat, value: real)
      requires Valid() && at < data.Length
      modifies this, data
      ensures Valid() && View() == old(View())[at := (value, old(stores)[at] + 1)]
    {
      data[at] := value;
      stores := stores[at := stores[at] + 1];
    }
  }

  /** The address of cell `r, c` of the result. */
  function Target(sh: Shape, r: nat, c: nat): nat { Addr(r, sh.strideCm, c, sh.strideCn) }

  /** The cells in `done`, and no others, were written, once each and with what belongs there;
      nothing else of the memory has changed. */
  ghost predicate Written(sh: Shape, a: seq<real>, b: seq<real>, bias: seq<real>,
                          was: seq<(real, nat)>, now: seq<(real, nat)>, done: iset<(nat, nat)>)
    requires MatricesFit(sh, a, b) && sh.n <= |bias|
  {
    && |was| == |now| && Fits(sh.m, sh.n, sh.strideCm, sh.strideCn, |was|)
    && (forall r: nat, c: nat :: (r, c) in done ==> r < sh.m && c < sh.n)
    && (forall r: nat, c: nat :: r < sh.m && c < sh.n && (r, c) in done ==>
          now[Target(sh, r, c)] == (Cell(sh, a, b, bias, r, c), was[Target(sh, r, c)].1 + 1))
    && (forall x :: 0 <= x < |was| && (forall r: nat, c: nat :: (r, c) in done ==> Target(sh, r, c) != x) ==>
         now[x] == was[x])
  }

  lemma WriteOne(sh: Shape, a: seq<real>, b: seq<real>, bias: seq<real>,
                 was: seq<(real, nat)>, now: seq<(real, nat)>, done: iset<(nat, nat)>, r: nat, c: nat)
    requires MatricesFit(sh, a, b) && sh.n <= |bias| && Separate(sh.m, sh.n, sh.strideCm, sh.strideCn)
    requires Written(sh, a, b, bias, was, now, done) && r < sh.m && c < sh.n && (r, c) !in done
    ensures Target(sh, r, c) < |now|
    ensures Written(sh, a, b, bias, was,
                    now[Target(sh, r, c) := (Cell(sh, a, b, bias, r, c), now[Target(sh, r, c)].1 + 1)],
                    done + iset{(r, c)})
  {
    hide Addr, Cell;
    var at := Target(sh, r, c);
    var next := now[at := (Cell(sh, a, b, bias, r, c), now[at].1 + 1)];
    assert forall r': nat, c': nat :: (r', c') in done ==> Target(sh, r', c') != at;
    forall x | 0 <= x < |was| && forall r': nat, c': nat :: (r', c') in done + iset{(r, c)} ==> Target(sh, r', c') != x
      ensures next[x] == was[x]
    {
      assert (r, c) in done + iset{(r, c)};
      assert forall r': nat, c': nat :: (r', c') in done ==> (r', c') in done + iset{(r, c)};
    }
  }

  lemma WriteMore(sh: Shape, a: seq<real>, b: seq<real>, bias: seq<real>,
                  was: seq<(real, nat)>, mid: seq<(real, nat)>, now: seq<(real, nat)>, done: iset<(nat, nat)>,
                  more: iset<(nat, nat)>)
    requires MatricesFit(sh, a, b) && sh.n <= |bias| && Separate(sh.m, sh.n, sh.strideCm, sh.strideCn)
    requires Written(sh, a, b, bias, was, mid, done) && Written(sh, a, b, bias, mid, now, more) && done !! more
    ensures Written(sh, a, b, bias, was, now, done + more)
  {
    hide Addr, Cell;
    forall r: nat, c: nat | r < sh.m && c < sh.n && (r, c) in done + more
      ensures now[Target(sh, r, c)] == (Cell(sh, a, b, bias, r, c), was[Target(sh, r, c)].1 + 1)
    {
      if (r, c) in done {
        assert forall r': nat, c': nat :: (r', c') in more ==> Target(sh, r', c') != Target(sh, r, c);
      } else {
        assert forall r': nat, c': nat :: (r', c') in done ==> Target(sh, r', c') != Target(sh, r, c);
      }
    }
    forall x | 0 <= x < |was| && forall r: nat, c: nat :: (r, c) in done + more ==> Target(sh, r, c) != x
      ensures now[x] == was[x]
    {
      assert forall r: nat, c: nat :: (r, c) in done ==> (r, c) in done + more;
      assert forall r: nat, c: nat :: (r, c) in more ==> (r, c) in done + more;
    }
  }

  /** The kernel with the arguments of one launch. */
  class Kernel {
    const sh: Shape
    const a: seq<real>
    const b: seq<real>
    const bias: seq<real>
    const c: Output

    ghost predicate Valid() {
      && MatricesFit(sh, a, b) && sh.n <= |bias| && sh.blockM > 0 && sh.blockN > 0 && sh.blockK > 0
      && Fits(sh.m, sh.n, sh.strideCm, sh.strideCn, c.data.Length) && Separate(sh.m, sh.n, sh.strideCm, sh.strideCn)
    }

    constructor (sh: Shape, a: seq<real>, b: seq<real>, bias: seq<real>, c: Output)
      requires MatricesFit(sh, a, b) && sh.n <= |bias| && sh.blockM > 0 && sh.blockN > 0 && sh.blockK > 0
      requires Fits(sh.m, sh.n, sh.strideCm, sh.strideCn, c.data.Length)
      requires Separate(sh.m, sh.n, sh.strideCm, sh.strideCn)
      ensures Valid() && this.sh == sh && this.a == a && this.b == b && this.bias == bias && this.c == c
    {
      this.sh, this.a, this.b, this.bias, this.c := sh, a, b, bias, c;
    }

    /** One cell of the product of the two loaded tiles, whose pointers have moved `k0` steps. */
    method TileDot(row: nat, col: nat, k0: nat, aMoved: nat, bMoved: nat) returns (dot: real)
      requires Valid() && row < sh.m && col < sh.n && k0 <= sh.k
      requires aMoved == k0 * sh.strideAk && bMoved == k0 * sh.strideBk
      ensures dot == Dot(sh, a, b, row, col, Min(sh.k, k0 + sh.blockK)) - Dot(sh, a, b, row, col, k0)
    {
      hide Fits, Separate, Addr;
      dot := 0.0;
      hide Dot;
      for kk := 0 to sh.blockK
        invariant dot == Dot(sh, a, b, row, col, Min(sh.k, k0 + kk)) - Dot(sh, a, b, row, col, k0)
      {
        LoadsInside(sh, a, b, row, col, k0, kk);
        DotNext(sh, a, b, row, col, k0 + kk);
        var mask := kk < sh.k - k0;
        dot := dot + Load(a, Addr(row, sh.strideAm, kk, sh.strideAk) + aMoved, mask)
                     * Load(b, Addr(kk, sh.strideBk, col, sh.strideBn) + bMoved, mask);
      }
    }

    /** What place `i, j` of the accumulator of a tile should hold after `k0` steps. */
    ghost function Partial(pidM: nat, pidN: nat, i: nat, j: nat, k0: nat): real
      requires Valid() && sh.m > 0 && sh.n > 0 && k0 <= sh.k
    {
      Dot(sh, a, b, Wrapped(pidM, sh.blockM, i, sh.m), Wrapped(pidN, sh.blockN, j, sh.n), k0)
    }

    ghost predicate Accumulated(acc: array2<real>, pidM: nat, pidN: nat, k0: nat, rows: nat, k1: nat)
      requires Valid() && sh.m > 0 && sh.n > 0 && k0 <= sh.k && k1 <= sh.k
      reads acc
    {
      && acc.Length0 == sh.blockM && acc.Length1 == sh.blockN
      && (forall i: nat, j: nat :: i < sh.blockM && j < sh.blockN ==>
            acc[i, j] == Partial(pidM, pidN, i, j, if i < rows then k1 else k0))
    }

    /** `acc += tl.dot(a, b)` for the tiles at `k0`. */
    method AddTiles(acc: array2<real>, pidM: nat, pidN: nat, k0: nat, aMoved: nat, bMoved: nat)
      requires Valid() && sh.m > 0 && sh.n > 0 && k0 <= sh.k
      requires aMoved == k0 * sh.strideAk && bMoved == k0 * sh.strideBk
      requires Accumulated(acc, pidM, pidN, k0, 0, k0)
      modifies acc
      ensures Accumulated(acc, pidM, pidN, k0, sh.blockM, Min(sh.k, k0 + sh.blockK))
    {
      hide Fits, Separate, Addr, Dot, Wrapped, Valid;
      var k1 := Min(sh.k, k0 + sh.blockK);
      for i := 0 to sh.blockM
        invariant Accumulated(acc, pidM, pidN, k0, i, k1)
      {
        for j := 0 to sh.blockN
          invariant acc.Length0 == sh.blockM && acc.Length1 == sh.blockN
          invariant forall i': nat, j': nat :: i' < sh.blockM && j' < sh.blockN ==>
                      acc[i', j'] == Partial(pidM, pidN, i', j', if i' < i || (i' == i && j' < j) then k1 else k0)
        {
          var dot := TileDot(Wrapped(pidM, sh.blockM, i, sh.m), Wrapped(pidN, sh.blockN, j, sh.n), k0, aMoved, bMoved);
          acc[i, j] := acc[i, j] + dot;
        }
      }
    }

    /** All tiles along the inner dimension. */
    method Accumulate(pidM: nat, pidN: nat) returns (acc: array2<real>)
      requires Valid() && sh.m > 0 && sh.n > 0
      ensures fresh(acc) && Accumulated(acc, pidM, pidN, 0, sh.blockM, sh.k)
    {
      CeilDivCovers(sh.k, sh.blockK);
      hide Fits, Separate, Addr, Wrapped, Valid;
      acc := new real[sh.blockM, sh.blockN]((i, j) => 0.0);
      var aMoved, bMoved, tiles := 0, 0, CeilDiv(sh.k, sh.blockK);
      for k := 0 to tiles
        invariant aMoved == k * sh.blockK * sh.strideAk && bMoved == k * sh.blockK * sh.strideBk
        invariant Accumulated(acc, pidM, pidN, 0, sh.blockM, Min(sh.k, k * sh.blockK))
      {
        TileStarts(k, tiles, sh.k, sh.blockK);
        AddTiles(acc, pidM, pidN, k * sh.blockK, aMoved, bMoved);
        aMoved := aMoved + sh.blockK * sh.strideAk;
        bMoved := bMoved + sh.blockK * sh.strideBk;
      }
    }

    lemma TileStarts(k: nat, tiles: nat, size: nat, block: nat)
      requires k < tiles && tiles * block < size + block
      ensures k * block < size && (k + 1) * block == k * block + block
    {
      TimesMonotone(k + 1, tiles, block);
    }

    /** The cells of a tile that come before place `i, j` of it. */
    ghost function Before(pidM: nat, pidN: nat, i: nat, j: nat): iset<(nat, nat)> {
      var row, col := pidM * sh.blockM, pidN * sh.blockN;
      iset x: (nat, nat) | x.0 < sh.m && x.1 < sh.n && col <= x.1 < col + sh.blockN
                           && (row <= x.0 < row + i || (x.0 == row + i && x.1 < col + j))
    }

    /** The cells that program `pid` is responsible for. */
    ghost function Tile(pid: nat): iset<(nat, nat)>
      requires sh.blockM > 0 && sh.blockN > 0
    {
      iset x: (nat, nat) | x.0 < sh.m && x.1 < sh.n && Owner(sh, x.0, x.1) == pid
    }

    lemma WholeTile(pid: nat)
      requires Valid() && GridWidth(sh) > 0
      ensures Before(pid / GridWidth(sh), pid % GridWidth(sh), sh.blockM, 0) == Tile(pid)
    {
      var pidM, pidN := pid / GridWidth(sh), pid % GridWidth(sh);
      forall x: (nat, nat) | x.0 < sh.m && x.1 < sh.n
        ensures x in Before(pidM, pidN, sh.blockM, 0) <==> x in Tile(pid)
      {
        InTile(x.0, sh.blockM, pidM);
        InTile(x.1, sh.blockN, pidN);
        OwnerUnique(sh, x.0, x.1);
      }
    }

    ghost predicate Stored(was: seq<(real, nat)>, done: iset<(nat, nat)>)
      requires Valid()
      reads c, c.data
    {
      c.Valid() && Written(sh, a, b, bias, was, c.View(), done)
    }

    /** Bias and ReLU for one place of the accumulator, stored if it lies inside the result. */
    method StorePlace(pidM: nat, pidN: nat, i: nat, j: nat, sum: real, ghost was: seq<(real, nat)>)
      requires Valid() && sh.m > 0 && sh.n > 0 && i < sh.blockM && j < sh.blockN
      requires sum == Partial(pidM, pidN, i, j, sh.k) && Stored(was, Before(pidM, pidN, i, j))
      modifies c, c.data
      ensures Stored(was, Before(pidM, pidN, i, j + 1))
    {
      hide Fits, Separate, Addr, Dot, Wrapped, Written, GridWidth, Target;
      var row, col := pidM * sh.blockM + i, pidN * sh.blockN + j;
      var before, after := Before(pidM, pidN, i, j), Before(pidM, pidN, i, j + 1);
      if row < sh.m && col < sh.n {
        var at := Target(sh, row, col);
        WriteOne(sh, a, b, bias, was, c.View(), before, row, col);
        assert after == before + iset{(row, col)};
        c.Store(at, Max(sum + bias[Wrapped(pidN, sh.blockN, j, sh.n)], 0.0));
      } else {
        assert after == before;
      }
    }

    lemma NextRow(pidM: nat, pidN: nat, i: nat)
      ensures Before(pidM, pidN, i + 1, 0) == Before(pidM, pidN, i, sh.blockN)
    {}

    /** One program: its tile, with bias and ReLU, is stored where it lies inside the result. */
    method Program(pid: nat)
      requires Valid() && c.Valid() && sh.m > 0 && sh.n > 0
      modifies c, c.data
      ensures Stored(old(c.View()), Tile(pid))
    {
      hide Fits, Separate, Addr, Dot, Wrapped, Before, Tile, Written;
      var width := GridWidth(sh);
      CeilDivCovers(sh.n, sh.blockN);
      var pidM, pidN := pid / width, pid % width;
      var acc := Accumulate(pidM, pidN);
      NothingWritten(c.View(), pidM, pidN);
      for i := 0 to sh.blockM
        invariant Accumulated(acc, pidM, pidN, 0, sh.blockM, sh.k) && Stored(old(c.View()), Before(pidM, pidN, i, 0))
      {
        for j := 0 to sh.blockN
          invariant Accumulated(acc, pidM, pidN, 0, sh.blockM, sh.k) && Stored(old(c.View()), Before(pidM, pidN, i, j))
        {
          StorePlace(pidM, pidN, i, j, acc[i, j], old(c.View()));
        }
        NextRow(pidM, pidN, i);
      }
      WholeTile(pid);
    }

    lemma NothingWritten(was: seq<(real, nat)>, pidM: nat, pidN: nat)
      requires Valid() && |was| == c.data.Length
      ensures Written(sh, a, b, bias, was, was, Before(pidM, pidN, 0, 0))
    {}

    /** The cells of all programs of `pids`. */
    ghost function Tiles(pids: seq<nat>): iset<(nat, nat)>
      requires sh.blockM > 0 && sh.blockN > 0
    {
      iset x: (nat, nat) | x.0 < sh.m && x.1 < sh.n && Owner(sh, x.0, x.1) in pids
    }

    /** The whole grid, one program after another in any order: every cell of the result is stored
        exactly once, with what the triple loop computes for it, and no other memory is touched. */
    method Launch(order: seq<nat>)
      requires Valid() && c.Valid()
      requires forall pid: nat :: pid in order <==> pid < GridSize(sh)
      requires forall i, j :: 0 <= i < j < |order| ==> order[i] != order[j]
      modifies c, c.data
      ensures c.Valid()
      ensures forall row: nat, col: nat :: row < sh.m && col < sh.n ==>
                && c.data[Target(sh, row, col)] == Cell(sh, a, b, bias, row, col)
                && c.stores[Target(sh, row, col)] == old(c.stores)[Target(sh, row, col)] + 1
      ensures forall x :: 0 <= x < c.data.Length ==>
                (forall row: nat, col: nat :: row < sh.m && col < sh.n ==> Target(sh, row, col) != x) ==>
                c.data[x] == old(c.data[x]) && c.stores[x] == old(c.stores)[x]
    {
      hide Addr, Cell, Owner, GridSize;
      for i := 0 to |order|
        invariant Stored(old(c.View()), Tiles(order[..i]))
      {
        assert order[i] in order;
        GridNotEmpty(order[i]);
        ghost var mid := c.View();
        Program(order[i]);
        NextProgram(order, i);
        WriteMore(sh, a, b, bias, old(c.View()), mid, c.View(), Tiles(order[..i]), Tile(order[i]));
      }
      forall row: nat, col: nat | row < sh.m && col < sh.n
        ensures (row, col) in Tiles(order)
      {
        OwnerUnique(sh, row, col);
      }
      assert order[..|order|] == order;
      assert forall x :: 0 <= x < c.data.Length ==> c.View()[x] == (c.data[x], c.stores[x]);
      assert forall x :: 0 <= x < c.data.Length ==> old(c.View())[x] == (old(c.data[x]), old(c.stores)[x]);
    }

    lemma GridNotEmpty(pid: nat)
      requires Valid() && pid < GridSize(sh)
      ensures sh.m > 0 && sh.n > 0
    {
      CeilDivCovers(sh.n, sh.blockN);
      CeilDivCovers(sh.m, sh.blockM);
    }

    lemma NextProgram(order: seq<nat>, i: nat)
      requires sh.blockM > 0 && sh.blockN > 0 && i < |order|
      requires forall i, j :: 0 <= i < j < |order| ==> order[i] != order[j]
      ensures Tiles(order[..i + 1]) == Tiles(order[..i]) + Tile(order[i]) && Tiles(order[..i]) !! Tile(order[i])
    {
      assert order[..i + 1] == order[..i] + [order[i]];
      assert order[i] !in order[..i];
    }
  }
}
