/** The open-addressed table of string handles: linear probing, no deletion. */
module Registry {

  const TABLE_SIZE: nat := 0x10_0000

  /** Pointers fit 32 bits: the pool is mapped low. Zero is the null pointer. */
  type Address = p: nat | p < 0x1_0000_0000

  /** Bitwise exclusive or. */
  function Xor(x: nat, y: nat): nat {
    if x == 0 && y == 0 then 0 else 2 * Xor(x / 2, y / 2) + (x + y) % 2
  }

  /** A pointer mixed with its upper half, cut to the size of the table. */
  function Hash(p: Address): (h: nat)
    ensures h < TABLE_SIZE
  {
    Xor(p, p / 0x1_0000) % TABLE_SIZE
  }

  /** The cell `d` steps after cell `h`, wrapping around. */
  function Probe(h: nat, d: nat): (i: nat)
    requires h < TABLE_SIZE && d < TABLE_SIZE
    ensures i < TABLE_SIZE
  {
    if h + d < TABLE_SIZE then h + d else h + d - TABLE_SIZE
  }

  /** How many steps lead from cell `h` to cell `i`. */
  function Distance(h: nat, i: nat): (d: nat)
    requires h < TABLE_SIZE && i < TABLE_SIZE
    ensures d < TABLE_SIZE && Probe(h, d) == i
  {
    if h <= i then i - h else i + TABLE_SIZE - h
  }

  /** The pointers stored in the cells. */
  ghost function Members(s: seq<Address>): set<Address> {
    set p | p in s && p != 0
  }

  ghost predicate HasEmpty(s: seq<Address>) { 0 in s }

  /** The first `d` cells probed from `h` are occupied, by pointers other than `p`. */
  ghost predicate Passed(s: seq<Address>, h: nat, d: nat, p: Address)
    requires |s| == TABLE_SIZE && h < TABLE_SIZE && d <= TABLE_SIZE
  {
    forall k :: 0 <= k < d ==> s[Probe(h, k)] != 0 && s[Probe(h, k)] != p
  }

  /** The pointer in cell `i` is reached from its own hash over occupied cells holding other pointers. */
  ghost predicate Reached(s: seq<Address>, i: nat)
    requires |s| == TABLE_SIZE && i < TABLE_SIZE
  {
    Passed(s, Hash(s[i]), Distance(Hash(s[i]), i), s[i])
  }

  ghost predicate WellPlaced(s: seq<Address>) {
    && |s| == TABLE_SIZE
    && (forall i :: 0 <= i < |s| && s[i] != 0 ==> Reached(s, i))
  }

  /** Distinct probe steps below the table size lead to distinct cells. */
  lemma ProbeInjective(h: nat, d: nat, e: nat)
    requires h < TABLE_SIZE && d < TABLE_SIZE && e < TABLE_SIZE
    ensures Probe(h, d) == Probe(h, e) <==> d == e
  {}

  /** A search for a stored pointer that has not met it yet is still on occupied cells. */
  lemma SearchGoesOn(s: seq<Address>, i: nat, d: nat)
    requires WellPlaced(s) && i < |s| && s[i] != 0 && d < TABLE_SIZE
    requires Passed(s, Hash(s[i]), d, s[i])
    ensures d <= Distance(Hash(s[i]), i) && s[Probe(Hash(s[i]), d)] != 0
  {
    hide Hash;
    var p := s[i];
    var e := Distance(Hash(p), i);
    assert Reached(s, i);
    assert s[Probe(Hash(p), e)] == p;
    assert d < e ==> s[Probe(Hash(p), d)] != 0;
  }

  /** An empty cell ends every search: a stored pointer sits before it on its own probe sequence. */
  lemma SearchEnds(s: seq<Address>, p: Address, d: nat)
    requires WellPlaced(s) && p != 0 && d < TABLE_SIZE
    requires Passed(s, Hash(p), d, p) && s[Probe(Hash(p), d)] == 0
    ensures p !in Members(s)
  {
    hide Hash;
    forall i | 0 <= i < |s| ensures s[i] != p {
      if s[i] == p { SearchGoesOn(s, i, d); }
    }
  }

  /** Filling the first empty cell of a probe sequence keeps every pointer reachable. */
  lemma Fill(s: seq<Address>, p: Address, d: nat)
    requires WellPlaced(s) && p != 0 && d < TABLE_SIZE
    requires Passed(s, Hash(p), d, p) && s[Probe(Hash(p), d)] == 0
    ensures var t := s[Probe(Hash(p), d) := p];
            WellPlaced(t) && Members(t) == Members(s) + {p}
  {
    hide Hash;
    var i := Probe(Hash(p), d);
    var t := s[i := p];
    SearchEnds(s, p, d);
    forall j | 0 <= j < |t| && t[j] != 0 ensures Reached(t, j) {
      if j == i {
        ProbeInjective(Hash(p), d, Distance(Hash(p), i));
        forall k | 0 <= k < d ensures t[Probe(Hash(p), k)] != 0 && t[Probe(Hash(p), k)] != p {
          ProbeInjective(Hash(p), k, d);
        }
      } else {
        var q := s[j];
        assert Reached(s, j);
        assert q in Members(s);
        forall k | 0 <= k < Distance(Hash(q), j)
          ensures t[Probe(Hash(q), k)] != 0 && t[Probe(Hash(q), k)] != q
        {
          assert s[Probe(Hash(q), k)] != 0 && s[Probe(Hash(q), k)] != q;
        }
      }
    }
    assert t[i] == p;
    assert forall q :: q in Members(t) <==> q in Members(s) || q == p by {
      forall q | q in Members(s) ensures q in Members(t) {
        var j :| 0 <= j < |s| && s[j] == q;
        assert t[j] == q;
      }
    }
  }

  /** The cell in which a search that began at `h` looks after `n` steps, however many those are. */
  function Walk(h: nat, n: nat): (i: nat)
    requires h < TABLE_SIZE
    ensures i < TABLE_SIZE
  {
    if n == 0 then h else
      var i := Walk(h, n - 1);
      if i + 1 == TABLE_SIZE then 0 else i + 1
  }

  lemma {:induction false} WalkProbes(h: nat, n: nat)
    requires h < TABLE_SIZE && n < TABLE_SIZE
    ensures Walk(h, n) == Probe(h, n)
  {
    if n > 0 {
      WalkProbes(h, n - 1);
    }
  }

  /** The search for `p` is over after some number of steps. */
  ghost predicate SearchStops(s: seq<Address>, p: Address)
    requires |s| == TABLE_SIZE
  {
    exists n: nat :: StopsAt(s, p, Walk(Hash(p), n))
  }

  predicate StopsAt(s: seq<Address>, p: Address, i: nat)
    requires i < |s|
  {
    s[i] == 0 || s[i] == p
  }

  /** A search ends if and only if a cell is empty or the pointer is stored: with a full table the search for
      any other pointer goes round forever. */
  lemma SearchStopsExactly(s: seq<Address>, p: Address)
    requires WellPlaced(s) && p != 0
    ensures SearchStops(s, p) <==> HasEmpty(s) || p in Members(s)
  {
    hide Hash, Reached;
    if HasEmpty(s) || p in Members(s) {
      var i: nat :| i < |s| && (s[i] == 0 || s[i] == p);
      var d := Distance(Hash(p), i);
      WalkProbes(Hash(p), d);
      assert StopsAt(s, p, Walk(Hash(p), d));
    }
  }

  /** No pointer is stored twice. */
  lemma Distinct(s: seq<Address>, i: nat, j: nat)
    requires WellPlaced(s) && i < j < |s| && s[i] != 0
    ensures s[i] != s[j]
  {
    hide Hash;
    if s[i] == s[j] {
      var h := Hash(s[i]);
      assert Reached(s, i) && Reached(s, j);
      SearchGoesOn(s, i, Distance(h, j));
      SearchGoesOn(s, j, Distance(h, i));
    }
  }

  /** The table can go on as long as fewer pointers are stored than there are cells. */
  lemma FreeCell(s: seq<Address>)
    requires WellPlaced(s)
    ensures HasEmpty(s) <==> |Members(s)| < TABLE_SIZE
  {
    hide Hash, Reached;
    forall i, j | 0 <= i < j < |s| && s[i] != 0 ensures s[i] != s[j] { Distinct(s, i, j); }
    assert s[..|s|] == s;
    if HasEmpty(s) {
      var z :| 0 <= z < |s| && s[z] == 0;
      CellCount(s, |s|, z);
    } else {
      CellCount(s, |s|, |s|);
    }
  }

  lemma OneMore(s: seq<Address>, p: Address)
    ensures Members([]) == {}
    ensures p == 0 || p in s ==> Members(s + [p]) == Members(s)
    ensures p != 0 && p !in s ==> |Members(s + [p])| == |Members(s)| + 1
  {
    if p == 0 || p in s {
      assert Members(s + [p]) == Members(s);
    } else {
      assert Members(s + [p]) == Members(s) + {p};
    }
  }

  /** The pointers in the first `n` cells of a table without duplicates. If `z` is
      among these cells, it is an empty one. */
  lemma {:induction false} CellCount(s: seq<Address>, n: nat, z: nat)
    requires n <= |s| && forall i, j :: 0 <= i < j < |s| && s[i] != 0 ==> s[i] != s[j]
    requires z < n ==> s[z] == 0
    ensures var m := |Members(s[..n])|;
            m <= n && (z < n ==> m < n) && ((forall i :: 0 <= i < n ==> s[i] != 0) ==> m == n)
  {
    hide Members;
    if n == 0 {
      OneMore([], 0);
    } else {
      CellCount(s, n - 1, z);
      assert s[..n] == s[..n - 1] + [s[n - 1]];
      if s[n - 1] != 0 { assert s[n - 1] !in s[..n - 1]; }
      OneMore(s[..n - 1], s[n - 1]);
    }
  }

  class HandleTable {
    const cells: array<Address>

    ghost predicate Valid()
      reads this, cells
    {
      WellPlaced(cells[..])
    }

    /** The set of registered handles. */
    ghost function Handles(): set<Address>
      reads this, cells
    {
      Members(cells[..])
    }

    constructor ()
      ensures Valid() && Handles() == {} && fresh(cells)
    {
      cells := new Address[TABLE_SIZE](i => 0);
    }

    /** Stores `p` in the first empty cell from its hash on, unless it is met before.
        The loop ends because every step comes nearer to some empty cell. */
    method Register(p: Address)
      requires Valid() && p != 0 && (HasEmpty(cells[..]) || p in Handles())
      modifies cells
      ensures Valid() && Handles() == old(Handles()) + {p}
      ensures old(p in Handles()) ==> cells[..] == old(cells[..])
    {
      hide Hash, Reached;
      ghost var s := cells[..];
      var h := Hash(p);
      ghost var start := h;
      ghost var d := 0;
      ghost var goal: nat :| goal < |s| && (s[goal] == 0 || s[goal] == p);
      ghost var end := Distance(start, goal);
      while cells[h] != 0
        invariant d <= end < TABLE_SIZE && h == Probe(start, d) && Passed(s, start, d, p) && cells[..] == s
        decreases end - d
      {
        assert d == end ==> h == goal;
        if cells[h] == p {
          assert p in s;
          return;
        }
        assert s[h] != 0 && s[h] != p;
        h := if h + 1 == TABLE_SIZE then 0 else h + 1;
        d := d + 1;
      }
      SearchEnds(s, p, d);
      Fill(s, p, d);
      cells[h] := p;
      assert cells[..] == s[h := p];
    }

    /** Exactly the registered pointers are valid strings. */
    method IsValid(p: Address) returns (found: bool)
      requires Valid() && (HasEmpty(cells[..]) || p in Handles())
      ensures found == (p in Handles())
    {
      hide Hash, Reached;
      if p == 0 {
        return false;
      }
      ghost var s := cells[..];
      var h := Hash(p);
      ghost var start := h;
      ghost var d := 0;
      ghost var goal: nat :| goal < |s| && (s[goal] == 0 || s[goal] == p);
      ghost var end := Distance(start, goal);
      while cells[h] != 0
        invariant d <= end < TABLE_SIZE && h == Probe(start, d) && Passed(s, start, d, p)
        decreases end - d
      {
        assert d == end ==> h == goal;
        if cells[h] == p {
          assert p in s;
          return true;
        }
        assert s[h] != 0 && s[h] != p;
        h := if h + 1 == TABLE_SIZE then 0 else h + 1;
        d := d + 1;
      }
      SearchEnds(s, p, d);
      return false;
    }
  }
}
