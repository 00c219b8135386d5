/** The post-pass over emitted IR that drops casts of values which already have the target
    type: their uses are redirected to what was cast. */
module CastElision {
  import opened Options
  import opened LineText

  type Ty = string

  /** What the pass sees of an instruction. A cast has its operand as only use. `Typed` are the
      instructions whose result type is tracked, `Plain` all others. */
  datatype Kind = Cast(srcTy: Ty, dstTy: Ty) | Typed(ty: Ty) | Plain | Elided

  /** What a phi takes when control comes from line `from`. */
  datatype Edge = Edge(from: nat, value: Name)
  datatype Phi = Phi(dest: Name, incoming: seq<Edge>)

  /** A line with phis is the head of a block together with them: they take their values all at once. */
  datatype Line = Line(dest: Option<Name>, kind: Kind, uses: seq<Name>, phis: seq<Phi>)

  /** A function: its lines, the lines that can follow each of them, and its parameters. Line 0 comes first. */
  datatype Func = Func(lines: seq<Line>, next: seq<set<nat>>, params: set<Name>)

  const ELIDED: Line := Line(None, Elided, [], [])

  /** The pass reads casts only of words into words. */
  predicate WellFormed(f: Func) {
    && |f.next| == |f.lines|
    && (forall i :: 0 <= i < |f.lines| && f.lines[i].kind.Cast? ==> IsCast(f.lines[i]) && f.next[i] == {i + 1})
    && (forall i :: 0 <= i < |f.lines| && f.lines[i].kind.Typed? ==> f.lines[i].dest.Some?)
    && (forall i :: 0 <= i < |f.lines| && f.lines[i].phis != [] ==>
          i > 0 && f.lines[i].kind.Plain? && f.lines[i].dest.None? && f.lines[i].uses == [])
    && (forall i :: 0 <= i < |f.lines| ==> !f.lines[i].kind.Elided?)
  }

  predicate IsCast(l: Line) { l.dest.Some? && |l.uses| == 1 && IsWord(l.dest.value) && IsWord(l.uses[0]) }

  // ------------------------------------------------------------------ what the pass does --

  /** The types known when line `n` is reached, in the order of the text. */
  function Types(lines: seq<Line>, n: nat): map<Name, Ty>
    requires n <= |lines|
  {
    if n == 0 then map[] else
      var l := lines[n - 1];
      if l.dest.None? then Types(lines, n - 1) else
        match l.kind
        case Cast(_, dstTy) => Types(lines, n - 1)[l.dest.value := dstTy]
        case Typed(ty) => Types(lines, n - 1)[l.dest.value := ty]
        case _ => Types(lines, n - 1)
  }

  /** The cast on line `i` is of a value that is taken to have the target type already. */
  predicate Elides(lines: seq<Line>, i: nat)
    requires i < |lines|
  {
    var l := lines[i];
    && l.kind.Cast? && l.dest.Some? && l.uses != []
    && (if l.uses[0] in Types(lines, i) then Types(lines, i)[l.uses[0]] else l.kind.srcTy) == l.kind.dstTy
  }

  function Aliases(lines: seq<Line>, n: nat): map<Name, Name>
    requires n <= |lines|
  {
    if n == 0 then map[]
    else if Elides(lines, n - 1) then Aliases(lines, n - 1)[lines[n - 1].dest.value := lines[n - 1].uses[0]]
    else Aliases(lines, n - 1)
  }

  // --------------------------------------------------------- exactly which casts are dropped --

  /** The line gives `x` the type `ty`: it is tracked, or a cast. */
  predicate GivesType(l: Line, x: Name, ty: Ty) {
    l.dest == Some(x) && match l.kind case Typed(t) => t == ty case Cast(_, dstTy) => dstTy == ty case _ => false
  }

  /** A cast is dropped exactly if its operand has the target type: the one that the last line before it to
      define the operand gives it, or, if there is no such line, the one that the cast itself states. */
  lemma ElidesExactly(lines: seq<Line>, i: nat, j: nat, ty: Ty)
    requires i < |lines| && lines[i].kind.Cast? && IsCast(lines[i])
    requires var x := lines[i].uses[0];
             if j < i then GivesType(lines[j], x, ty) && forall m, t :: j < m < i ==> !GivesType(lines[m], x, t)
             else ty == lines[i].kind.srcTy && forall m, t :: 0 <= m < i ==> !GivesType(lines[m], x, t)
    ensures Elides(lines, i) <==> ty == lines[i].kind.dstTy
  {
    TypeTracked(lines, i, lines[i].uses[0], j, ty);
  }

  lemma {:induction false} TypeTracked(lines: seq<Line>, n: nat, x: Name, j: nat, ty: Ty)
    requires n <= |lines| && (j < n ==> GivesType(lines[j], x, ty))
    requires forall m, t :: (j < n ==> j < m) && 0 <= m < n ==> !GivesType(lines[m], x, t)
    ensures if j < n then x in Types(lines, n) && Types(lines, n)[x] == ty else x !in Types(lines, n)
    decreases n
  {
    if n > 0 {
      var l := lines[n - 1];
      if j != n - 1 {
        assert l.dest == Some(x) && l.kind.Typed? ==> GivesType(l, x, l.kind.ty);
        assert l.dest == Some(x) && l.kind.Cast? ==> GivesType(l, x, l.kind.dstTy);
        TypeTracked(lines, n - 1, x, j, ty);
      }
    }
  }

  /** Only casts are dropped. */
  lemma OnlyCastsElided(lines: seq<Line>, i: nat)
    requires i < |lines|
    ensures Elides(lines, i) ==> lines[i].kind.Cast? && lines[i].dest.Some?
  {}

  /** The address of a slot that is turned into a pointer once more: it is one already, whatever the cast says. */
  function SlotToPointer(): seq<Line> {
    [Line(Some("%p"), Typed("ptr"), [], []), Line(Some("%q"), Cast("i64", "ptr"), ["%p"], [])]
  }

  lemma SlotToPointerElided()
    ensures Elides(SlotToPointer(), 1) && Aliases(SlotToPointer(), 2) == map["%q" := "%p"]
  {
    ElidesExactly(SlotToPointer(), 1, 0, "ptr");
    assert Aliases(SlotToPointer(), 1) == map[];
  }

  /** Follows the aliases from `x` for at most `n` steps. */
  function Chase(aliases: map<Name, Name>, x: Name, n: nat): Name
    decreases n
  {
    if n == 0 || x !in aliases then x else Chase(aliases, aliases[x], n - 1)
  }

  /** Following the aliases from `x` comes to an end. */
  ghost predicate Ends(aliases: map<Name, Name>, x: Name) { exists n: nat :: Chase(aliases, x, n) !in aliases }

  ghost function Root(aliases: map<Name, Name>, x: Name): (r: Name)
    requires Ends(aliases, x)
    ensures r !in aliases && (x !in aliases ==> r == x)
  {
    var n: nat :| Chase(aliases, x, n) !in aliases;
    Chase(aliases, x, n)
  }

  lemma {:induction false} ChaseAdd(aliases: map<Name, Name>, x: Name, m: nat, n: nat)
    ensures Chase(aliases, x, m + n) == Chase(aliases, Chase(aliases, x, m), n)
    decreases m
  {
    if m > 0 && x in aliases {
      ChaseAdd(aliases, aliases[x], m - 1, n);
    }
  }

  /** There is only one end. */
  lemma RootUnique(aliases: map<Name, Name>, x: Name, n: nat)
    requires Chase(aliases, x, n) !in aliases
    ensures Ends(aliases, x) && Root(aliases, x) == Chase(aliases, x, n)
  {
    var m: nat :| Chase(aliases, x, m) !in aliases && Chase(aliases, x, m) == Root(aliases, x);
    ChaseAdd(aliases, x, m, n);
    ChaseAdd(aliases, x, n, m);
  }

  lemma RootStep(aliases: map<Name, Name>, x: Name)
    requires x in aliases && Ends(aliases, aliases[x])
    ensures Ends(aliases, x) && Root(aliases, x) == Root(aliases, aliases[x])
  {
    var n: nat :| Chase(aliases, aliases[x], n) !in aliases;
    RootUnique(aliases, aliases[x], n);
    RootUnique(aliases, x, n + 1);
  }

  /** A chase that comes back to where it was never ends. */
  lemma {:induction false} NoReturn(aliases: map<Name, Name>, x: Name, n: nat, m: nat)
    requires n > 0 && Chase(aliases, x, n) == x && x in aliases
    ensures Chase(aliases, x, m) in aliases
    decreases m
  {
    if m >= n {
      ChaseAdd(aliases, x, n, m - n);
      NoReturn(aliases, x, n, m - n);
    } else {
      StillIn(aliases, x, m, n);
    }
  }

  lemma {:induction false} StillIn(aliases: map<Name, Name>, x: Name, m: nat, n: nat)
    requires m <= n && Chase(aliases, x, n) in aliases
    ensures Chase(aliases, x, m) in aliases
    decreases m
  {
    if m > 0 && x in aliases {
      StillIn(aliases, aliases[x], m - 1, n - 1);
    }
  }

  lemma EndsBefore(aliases: map<Name, Name>, start: Name, k: nat)
    requires Ends(aliases, Chase(aliases, start, k))
    ensures Ends(aliases, start)
  {
    var n: nat :| Chase(aliases, Chase(aliases, start, k), n) !in aliases;
    ChaseAdd(aliases, start, k, n);
  }

  /** The root of an alias as the pass finds it. Going round in a circle is noticed, and then an alias is returned. */
  method Resolve(aliases: map<Name, Name>, start: Name) returns (name: Name)
    ensures if Ends(aliases, start) then name == Root(aliases, start) else name in aliases && !Ends(aliases, name)
  {
    name := start;
    var visited := {};
    ghost var steps: nat := 0;
    while name in aliases && name !in visited
      invariant name == Chase(aliases, start, steps) && visited <= aliases.Keys
      invariant forall x :: x in visited ==> exists k: nat :: k < steps && x == Chase(aliases, start, k)
      decreases |aliases.Keys - visited|
    {
      ChaseAdd(aliases, start, steps, 1);
      ghost var before := visited;
      visited := visited + {name};
      assert aliases.Keys - before == (aliases.Keys - visited) + {name};
      name := aliases[name];
      steps := steps + 1;
    }
    if name in aliases {
      ghost var k: nat :| k < steps && name == Chase(aliases, start, k);
      ChaseAdd(aliases, start, k, steps - k);
      NeverEnds(aliases, start, k, steps - k);
      if Ends(aliases, name) {
        EndsBefore(aliases, start, steps);
      }
    } else {
      RootUnique(aliases, start, steps);
    }
  }

  /** The aliases that are met on the way from `x` come round. */
  ghost predicate Circles(aliases: map<Name, Name>, x: Name) {
    exists k: nat, n: nat :: k < n && ReturnsAt(aliases, x, k, n)
  }

  predicate ReturnsAt(aliases: map<Name, Name>, x: Name, k: nat, n: nat) {
    Chase(aliases, x, k) == Chase(aliases, x, n) && Chase(aliases, x, k) in aliases
  }

  /** `y` is met on the first `steps` steps from `x`. */
  ghost predicate Met(aliases: map<Name, Name>, x: Name, steps: nat, y: Name) {
    exists k: nat :: k < steps && y == Chase(aliases, x, k)
  }

  /** The names on the way from `x`, none of them twice, are no more than there are aliases. */
  lemma {:induction false} EndsOrReturns(aliases: map<Name, Name>, x: Name, steps: nat, visited: set<Name>)
    requires visited <= aliases.Keys && forall y :: y in visited ==> Met(aliases, x, steps, y)
    ensures Ends(aliases, x) || Circles(aliases, x)
    decreases |aliases.Keys - visited|
  {
    var y := Chase(aliases, x, steps);
    if y in visited {
      var k: nat :| k < steps && y == Chase(aliases, x, k);
      assert ReturnsAt(aliases, x, k, steps);
    } else if y in aliases {
      assert aliases.Keys - visited == (aliases.Keys - (visited + {y})) + {y};
      forall z | z in visited + {y} ensures Met(aliases, x, steps + 1, z) {
        if z in visited {
          var k: nat :| k < steps && z == Chase(aliases, x, k);
          assert k < steps + 1 && z == Chase(aliases, x, k);
        }
      }
      EndsOrReturns(aliases, x, steps + 1, visited + {y});
    }
  }

  /** Following the aliases comes to an end if and only if it does not come round. */
  lemma EndsExactly(aliases: map<Name, Name>, x: Name)
    ensures Ends(aliases, x) <==> !Circles(aliases, x)
  {
    EndsOrReturns(aliases, x, 0, {});
    if Circles(aliases, x) {
      var k: nat, n: nat :| k < n && ReturnsAt(aliases, x, k, n);
      ChaseAdd(aliases, x, k, n - k);
      NeverEnds(aliases, x, k, n - k);
    }
  }

  lemma NeverEnds(aliases: map<Name, Name>, start: Name, k: nat, n: nat)
    requires n > 0 && Chase(aliases, start, k) in aliases
    requires Chase(aliases, Chase(aliases, start, k), n) == Chase(aliases, start, k)
    ensures !Ends(aliases, start)
  {
    var x := Chase(aliases, start, k);
    forall m: nat ensures Chase(aliases, start, m) in aliases {
      NoReturn(aliases, x, n, m);
      ChaseAdd(aliases, start, k, m);
      ChaseAdd(aliases, start, m, k);
    }
  }

  /** The pass over the lines of one function. */
  method Elide(lines: seq<Line>) returns (fixed: seq<Line>, aliases: map<Name, Name>)
    ensures aliases == Aliases(lines, |lines|) && |fixed| == |lines|
    ensures forall i :: 0 <= i < |lines| ==>
              fixed[i] == if Elides(lines, i) then ELIDED else lines[i]
  {
    var types: map<Name, Ty> := map[];
    fixed, aliases := [], map[];
    for i := 0 to |lines|
      invariant types == Types(lines, i) && aliases == Aliases(lines, i) && |fixed| == i
      invariant forall j :: 0 <= j < i ==> fixed[j] == if Elides(lines, j) then ELIDED else lines[j]
    {
      var line := lines[i];
      if line.kind.Typed? && line.dest.Some? {
        types := types[line.dest.value := line.kind.ty];
      }
      if line.kind.Cast? && line.dest.Some? {
        var dest, dstTy := line.dest.value, line.kind.dstTy;
        if line.uses != [] {
          var src := line.uses[0];
          var actual := if src in types then types[src] else line.kind.srcTy;
          if actual == dstTy {
            aliases := aliases[dest := src];
            line := ELIDED;
          }
        }
        types := types[dest := dstTy];
      }
      fixed := fixed + [line];
    }
  }

  // -------------------------------------------------------------------------- replacing --

  predicate WordAliases(aliases: map<Name, Name>) { forall x :: x in aliases ==> IsWord(x) && IsWord(aliases[x]) }

  lemma {:induction false} ChaseWord(aliases: map<Name, Name>, x: Name, n: nat)
    requires WordAliases(aliases) && IsWord(x)
    ensures IsWord(Chase(aliases, x, n))
    decreases n
  {
    if n > 0 && x in aliases {
      ChaseWord(aliases, aliases[x], n - 1);
    }
  }

  lemma RootWord(aliases: map<Name, Name>, x: Name)
    requires WordAliases(aliases) && x in aliases && Ends(aliases, x)
    ensures IsWord(Root(aliases, x))
  {
    var n: nat :| Chase(aliases, x, n) !in aliases && Chase(aliases, x, n) == Root(aliases, x);
    ChaseWord(aliases, x, n);
  }

  /** What becomes of a name: an alias at its beginning is replaced by the root of that alias, or, where following
      it never ends, by some alias again. */
  ghost predicate Rewritten(aliases: map<Name, Name>, was: Name, now: Name) {
    if Stem(was) !in aliases then now == was
    else if Ends(aliases, Stem(was)) then now == Root(aliases, Stem(was)) + Suffix(was)
    else Stem(now) in aliases && !Ends(aliases, Stem(now)) && Suffix(now) == Suffix(was)
  }

  /** The aliases of `order`, and only those, are replaced. */
  ghost predicate PartlyRewritten(aliases: map<Name, Name>, was: Name, now: Name, order: seq<Name>) {
    if Stem(was) in aliases && Ends(aliases, Stem(was)) && Stem(was) !in order then now == was
    else Rewritten(aliases, was, now)
  }

  /** One alias after another is replaced, character by character. In whatever order the aliases come, a name
      whose alias has a root ends with that root. */
  method RewriteName(was: Name, aliases: map<Name, Name>, order: seq<Name>) returns (now: Name)
    requires WordAliases(aliases) && forall x :: x in aliases <==> x in order
    ensures Rewritten(aliases, was, now)
  {
    hide Rewritten, Stem, Suffix;
    now := was;
    assert PartlyRewritten(aliases, was, now, order[..0]) by { NothingRewritten(aliases, was); }
    for k := 0 to |order|
      invariant PartlyRewritten(aliases, was, now, order[..k])
    {
      var alias := order[k];
      assert alias in order;
      var resolved := Resolve(aliases, alias);
      OneRewritten(aliases, was, now, order[..k], alias, resolved);
      now := Replaced(now, alias, resolved);
      assert order[..k + 1] == order[..k] + [alias];
    }
    assert order[..|order|] == order;
  }

  lemma NothingRewritten(aliases: map<Name, Name>, was: Name)
    ensures PartlyRewritten(aliases, was, was, [])
  {}

  lemma OneRewritten(aliases: map<Name, Name>, was: Name, now: Name, order: seq<Name>, alias: Name, resolved: Name)
    requires WordAliases(aliases) && alias in aliases && PartlyRewritten(aliases, was, now, order)
    requires if Ends(aliases, alias) then resolved == Root(aliases, alias)
             else resolved in aliases && !Ends(aliases, resolved)
    ensures PartlyRewritten(aliases, was, Replaced(now, alias, resolved), order + [alias])
  {
    hide WordAliases;
    SuffixStops(now);
    SuffixStops(was);
    if Ends(aliases, alias) {
      RootWord(aliases, alias);
    }
    assert IsWord(resolved) by { WordOf(aliases, resolved); }
    if Stem(now) == alias {
      StemOf(resolved, Suffix(now));
    }
    if Stem(was) in aliases && Ends(aliases, Stem(was)) {
      RootWord(aliases, Stem(was));
      StemOf(Root(aliases, Stem(was)), Suffix(was));
    }
  }

  lemma WordOf(aliases: map<Name, Name>, x: Name)
    requires WordAliases(aliases)
    ensures x in aliases ==> IsWord(x)
  {}

  ghost predicate AllRewritten(aliases: map<Name, Name>, was: seq<Name>, now: seq<Name>) {
    |now| == |was| && forall i :: 0 <= i < |was| ==> Rewritten(aliases, was[i], now[i])
  }

  method RewriteNames(was: seq<Name>, aliases: map<Name, Name>, order: seq<Name>) returns (now: seq<Name>)
    requires WordAliases(aliases) && forall x :: x in aliases <==> x in order
    ensures AllRewritten(aliases, was, now)
  {
    hide Rewritten, WordAliases;
    now := [];
    for i := 0 to |was|
      invariant |now| == i && forall j :: 0 <= j < i ==> Rewritten(aliases, was[j], now[j])
    {
      var name := RewriteName(was[i], aliases, order);
      now := now + [name];
    }
  }

  ghost predicate PhiRewritten(aliases: map<Name, Name>, was: Phi, now: Phi) {
    && Rewritten(aliases, was.dest, now.dest) && |now.incoming| == |was.incoming|
    && forall i :: 0 <= i < |was.incoming| ==>
         now.incoming[i].from == was.incoming[i].from
           && Rewritten(aliases, was.incoming[i].value, now.incoming[i].value)
  }

  method RewritePhi(was: Phi, aliases: map<Name, Name>, order: seq<Name>) returns (now: Phi)
    requires WordAliases(aliases) && forall x :: x in aliases <==> x in order
    ensures PhiRewritten(aliases, was, now)
  {
    hide Rewritten, WordAliases;
    var dest := RewriteName(was.dest, aliases, order);
    var edges: seq<Edge> := [];
    for i := 0 to |was.incoming|
      invariant |edges| == i
      invariant forall j :: 0 <= j < i ==>
                  edges[j].from == was.incoming[j].from && Rewritten(aliases, was.incoming[j].value, edges[j].value)
    {
      var value := RewriteName(was.incoming[i].value, aliases, order);
      edges := edges + [Edge(was.incoming[i].from, value)];
    }
    now := Phi(dest, edges);
  }

  ghost predicate LineRewritten(aliases: map<Name, Name>, was: Line, now: Line) {
    && now.kind == was.kind && (now.dest.Some? <==> was.dest.Some?)
    && (was.dest.Some? ==> Rewritten(aliases, was.dest.value, now.dest.value))
    && AllRewritten(aliases, was.uses, now.uses)
    && |now.phis| == |was.phis| && forall k :: 0 <= k < |was.phis| ==> PhiRewritten(aliases, was.phis[k], now.phis[k])
  }

  method RewriteLine(was: Line, aliases: map<Name, Name>, order: seq<Name>) returns (now: Line)
    requires WordAliases(aliases) && forall x :: x in aliases <==> x in order
    ensures LineRewritten(aliases, was, now)
  {
    hide Rewritten, WordAliases, AllRewritten, PhiRewritten;
    var dest: Option<Name> := None;
    if was.dest.Some? {
      var name := RewriteName(was.dest.value, aliases, order);
      dest := Some(name);
    }
    var uses := RewriteNames(was.uses, aliases, order);
    var phis: seq<Phi> := [];
    for k := 0 to |was.phis|
      invariant |phis| == k && forall j :: 0 <= j < k ==> PhiRewritten(aliases, was.phis[j], phis[j])
    {
      var phi := RewritePhi(was.phis[k], aliases, order);
      phis := phis + [phi];
    }
    now := Line(dest, was.kind, uses, phis);
  }

  /** Rewrites the lines of a function in place. */
  method ApplyAliases(lines: array<Line>, aliases: map<Name, Name>, order: seq<Name>)
    requires WordAliases(aliases) && forall x :: x in aliases <==> x in order
    modifies lines
    ensures forall i :: 0 <= i < lines.Length ==>
              if old(lines[i]).kind.Elided? then lines[i] == old(lines[i])
                else LineRewritten(aliases, old(lines[i]), lines[i])
  {
    hide LineRewritten, WordAliases;
    for i := 0 to lines.Length
      invariant forall j :: i <= j < lines.Length ==> lines[j] == old(lines[j])
      invariant forall j :: 0 <= j < i ==>
                  if old(lines[j]).kind.Elided? then lines[j] == old(lines[j])
                  else LineRewritten(aliases, old(lines[j]), lines[j])
    {
      if !lines[i].kind.Elided? {
        var now := RewriteLine(lines[i], aliases, order);
        lines[i] := now;
      }
    }
  }

  /** The text of a line is rewritten name by name, in the same way. */
  method RewriteText(text: string, aliases: map<Name, Name>, order: seq<Name>, ghost ps: seq<Piece>)
    returns (now: string, ghost qs: seq<Piece>)
    requires WordAliases(aliases) && (forall x :: x in aliases <==> x in order) && Spelled(ps) && text == Render(ps)
    ensures now == Render(qs) && |qs| == |ps|
    ensures forall i :: 0 <= i < |ps| ==>
              if ps[i].Other? then qs[i] == ps[i] else qs[i].Ref? && Rewritten(aliases, ps[i].name, qs[i].name)
  {
    hide Rewritten, Stem, Suffix, Spelled, Render, Sub, Replaced;
    now, qs := text, ps;
    forall i | 0 <= i < |ps| && ps[i].Ref? ensures PartlyRewritten(aliases, ps[i].name, ps[i].name, order[..0]) {
      NothingRewritten(aliases, ps[i].name);
    }
    for k := 0 to |order|
      invariant now == Render(qs) && |qs| == |ps| && Spelled(qs)
      invariant forall i :: 0 <= i < |ps| ==>
                  if ps[i].Other? then qs[i] == ps[i]
                  else qs[i].Ref? && PartlyRewritten(aliases, ps[i].name, qs[i].name, order[..k])
    {
      var alias := order[k];
      assert alias in order;
      var resolved := Resolve(aliases, alias);
      assert IsWord(alias) && IsWord(resolved) by { ResolvedWord(aliases, alias, resolved); }
      ghost var f := (n: Name) => Replaced(n, alias, resolved);
      forall i | 0 <= i < |ps| && ps[i].Ref?
        ensures PartlyRewritten(aliases, ps[i].name, f(qs[i].name), order[..k] + [alias])
      {
        OneRewritten(aliases, ps[i].name, qs[i].name, order[..k], alias, resolved);
      }
      SubRender(qs, alias, resolved);
      ReplacedIsName(alias, resolved);
      MappedSpelled(qs, f);
      now, qs := Sub(now, alias, resolved), Mapped(qs, f);
      assert order[..k + 1] == order[..k] + [alias];
    }
    assert order[..|order|] == order;
  }

  lemma ResolvedWord(aliases: map<Name, Name>, alias: Name, resolved: Name)
    requires WordAliases(aliases) && alias in aliases
    requires if Ends(aliases, alias) then resolved == Root(aliases, alias) else resolved in aliases
    ensures IsWord(alias) && IsWord(resolved)
  {
    if Ends(aliases, alias) {
      RootWord(aliases, alias);
    }
  }

  /** A name is replaced as a whole, or not at all, if and only if it is not an alias with something behind it. */
  lemma RewrittenExactly(aliases: map<Name, Name>, was: Name, now: Name)
    requires WordAliases(aliases) && Rewritten(aliases, was, now) && (Stem(was) in aliases ==> Ends(aliases, Stem(was)))
    ensures now == (if was in aliases && Ends(aliases, was) then Root(aliases, was) else was)
            <==> (Stem(was) in aliases ==> Stem(was) == was)
  {
    if Stem(was) in aliases {
      SameEnd(Root(aliases, Stem(was)), Stem(was), Suffix(was));
      if Stem(was) == was {
        assert Suffix(was) == "";
      } else {
        assert was in aliases ==> IsWord(was);
      }
    }
  }

  // -------------------------------------------------------------------- control flow --

  /** Line numbers, each followed by a possible successor, from the first line on. */
  ghost predicate Path(f: Func, p: seq<nat>) {
    && p != [] && p[0] == 0
    && (forall i :: 0 <= i < |p| - 1 ==> p[i] < |f.next| && p[i + 1] in f.next[p[i]])
  }

  /** Line `d` comes before line `u` on every path to `u`. */
  ghost predicate Dominates(f: Func, d: nat, u: nat) {
    forall p :: Path(f, p) && p[|p| - 1] == u ==> d in p[..|p| - 1]
  }

  ghost predicate Reachable(f: Func, u: nat) { exists p :: Path(f, p) && p[|p| - 1] == u }

  /** Line `d` has been run on every path that has just left line `j`. */
  ghost predicate DominatesEnd(f: Func, d: nat, j: nat) { d == j || Dominates(f, d, j) }

  predicate DefinedOn(l: Line, x: Name) { l.dest == Some(x) || exists k :: 0 <= k < |l.phis| && l.phis[k].dest == x }

  ghost predicate Defines(f: Func, i: nat, x: Name) { i < |f.lines| && DefinedOn(f.lines[i], x) }

  /** Static single assignment: one definition for each name, on every path to each of its uses. The value that a
      phi takes on an edge is used at the end of the line where the edge begins. */
  ghost predicate Ssa(f: Func) {
    && (forall i: nat, j: nat, x :: Defines(f, i, x) && Defines(f, j, x) ==> i == j)
    && (forall i, j, k :: 0 <= i < |f.lines| && 0 <= j < k < |f.lines[i].phis| ==>
          f.lines[i].phis[j].dest != f.lines[i].phis[k].dest)
    && (forall i: nat, x :: Defines(f, i, x) ==> x !in f.params)
    && (forall u, x :: 0 <= u < |f.lines| && x in f.lines[u].uses && x !in f.params ==>
          exists d: nat :: Defines(f, d, x) && Dominates(f, d, u))
    && (forall u, k :: 0 <= u < |f.lines| && 0 <= k < |f.lines[u].phis| ==> PhiSsa(f, f.lines[u].phis[k]))
  }

  ghost predicate PhiSsa(f: Func, phi: Phi) {
    forall e :: e in phi.incoming && e.value !in f.params ==>
      exists d: nat :: Defines(f, d, e.value) && DominatesEnd(f, d, e.from)
  }

  /** Line `y` comes before the end of each path that ends like `p`: at the same line, on the same edge. */
  ghost predicate Sure(f: Func, y: nat, p: seq<nat>)
    requires p != []
  {
    forall q :: Path(f, q) && SameLast(p, q) ==> y in q[..|q| - 1]
  }

  predicate SameLast(p: seq<nat>, q: seq<nat>)
    requires p != [] && q != []
  {
    && q[|q| - 1] == p[|p| - 1]
    && (|p| > 1 ==> |q| > 1 && q[|q| - 2] == p[|p| - 2])
  }

  lemma SureEnd(f: Func, d: nat, p: seq<nat>)
    requires Path(f, p) && |p| > 1 && DominatesEnd(f, d, p[|p| - 2])
    ensures Sure(f, d, p)
  {
    forall q | Path(f, q) && SameLast(p, q) ensures d in q[..|q| - 1] {
      var n := |q| - 1;
      PathPrefix(f, q, n - 1);
      assert q[..n][n - 1] == p[|p| - 2];
      if d != p[|p| - 2] {
        assert d in q[..n][..|q[..n]| - 1];
      }
    }
  }

  lemma SureTransitive(f: Func, x: nat, y: nat, p: seq<nat>)
    requires p != [] && Dominates(f, x, y) && Sure(f, y, p)
    ensures Sure(f, x, p)
  {
    forall q | Path(f, q) && SameLast(p, q) ensures x in q[..|q| - 1] {
      var i := First(q[..|q| - 1], y);
      PathPrefix(f, q, i);
      assert q[..i + 1][..i] == q[..i];
      assert x in q[..i];
    }
  }

  lemma PathPrefix(f: Func, p: seq<nat>, n: nat)
    requires Path(f, p) && n < |p|
    ensures Path(f, p[..n + 1])
  {}

  /** The first place of `x` in `p`. */
  lemma First(p: seq<nat>, x: nat) returns (i: nat)
    requires x in p
    ensures i < |p| && p[i] == x && x !in p[..i]
  {
    i := 0;
    while p[i] != x
      invariant i < |p| && x !in p[..i] && x in p[i..]
      decreases |p| - i
    {
      assert p[..i + 1] == p[..i] + [p[i]];
      assert p[i..] == [p[i]] + p[i + 1..];
      i := i + 1;
    }
  }

  lemma Last(p: seq<nat>, x: nat) returns (i: nat)
    requires x in p
    ensures i < |p| && p[i] == x && x !in p[i + 1..]
  {
    i := |p| - 1;
    while p[i] != x
      invariant i < |p| && x !in p[i + 1..] && x in p[..i + 1]
      decreases i
    {
      assert p[i..] == [p[i]] + p[i + 1..];
      assert p[..i + 1] == p[..i] + [p[i]];
      i := i - 1;
    }
  }

  lemma DominatesAt(f: Func, p: seq<nat>, x: nat, y: nat, i: nat)
    requires Path(f, p) && Dominates(f, x, y) && i < |p|
    ensures p[i] == y ==> x in p[..i]
  {
    PathPrefix(f, p, i);
    assert p[..i + 1][..i] == p[..i];
  }

  lemma InPrefix(p: seq<nat>, i: nat, g: nat, x: nat)
    requires i <= g <= |p|
    ensures x in p[..i] ==> x in p[..g]
  {
    assert p[..i] == p[..g][..i];
  }

  /** What `x` dominates does not come before the first `x`. */
  lemma NotBefore(f: Func, p: seq<nat>, x: nat, y: nat, g: nat)
    requires Path(f, p) && Dominates(f, x, y) && g < |p| && x !in p[..g]
    ensures y !in p[..g] && p[g] != y
  {
    hide Path, Dominates;
    DominatesAt(f, p, x, y, g);
    forall i | 0 <= i < g ensures p[i] != y {
      DominatesAt(f, p, x, y, i);
      InPrefix(p, i, g, x);
    }
  }

  lemma DetourParts(p: seq<nat>, g: nat, k: nat, y: nat)
    requires g <= k < |p| - 1
    ensures var q := p[..g] + p[k..];
            y in q[..|q| - 1] ==> y in p[..g] || y == p[k] || y in p[k + 1..|p| - 1]
  {
    var q, n := p[..g] + p[k..], |p| - 1;
    assert q[..|q| - 1] == p[..g] + p[k..n];
    assert p[k..n] == [p[k]] + p[k + 1..n];
  }

  /** On the way that leaves out what lies between two equal lines there is a `y`, too. */
  lemma Detour(f: Func, p: seq<nat>, y: nat, g: nat, k: nat)
    requires Path(f, p) && Sure(f, y, p) && g <= k < |p| - 1 && p[g] == p[k]
    ensures y in p[..g] || y == p[k] || y in p[k + 1..|p| - 1]
  {
    Shortcut(f, p, g, k);
    DetourParts(p, g, k, y);
  }

  /** Where `x` dominates `y` and `y` is sure to come before the end of a path, there is a `y` behind each `x`. */
  lemma Behind(f: Func, p: seq<nat>, x: nat, y: nat, k: nat)
    requires Path(f, p) && Dominates(f, x, y) && Sure(f, y, p) && k < |p| - 1
    ensures p[k] == x ==> y in p[k + 1..|p| - 1]
  {
    hide Path, Dominates, Sure;
    if p[k] == x {
      var g := First(p[..k + 1], x);
      assert p[..k + 1][..g] == p[..g];
      NotBefore(f, p, x, y, g);
      Detour(f, p, y, g, k);
    }
  }

  /** So the last `y` is behind the last `x`. */
  lemma Renewed(f: Func, p: seq<nat>, x: nat, y: nat) returns (j: nat)
    requires Path(f, p) && Dominates(f, x, y) && Sure(f, y, p)
    ensures j < |p| - 1 && p[j] == y && x !in p[j + 1..|p| - 1]
  {
    var n := |p| - 1;
    var body := p[..n];
    assert SameLast(p, p);
    assert y in body;
    hide Path, Dominates, Sure;
    j := Last(body, y);
    assert body[j + 1..] == p[j + 1..n];
    forall k | j < k < n ensures p[k] != x {
      Behind(f, p, x, y, k);
      assert p[k + 1..n] == body[j + 1..][k - j..];
    }
  }

  lemma Shortcut(f: Func, p: seq<nat>, g: nat, k: nat)
    requires Path(f, p) && g <= k < |p| - 1 && p[g] == p[k]
    ensures Path(f, p[..g] + p[k..]) && SameLast(p, p[..g] + p[k..])
  {
    var q := p[..g] + p[k..];
    forall i | 0 <= i < |q| - 1 ensures q[i] < |f.next| && q[i + 1] in f.next[q[i]] {
      if i < g {
        assert q[i] == p[i] && q[i + 1] == p[i + 1];
      } else {
        assert q[i] == p[i - g + k] && q[i + 1] == p[i - g + k + 1];
      }
    }
  }

  // ------------------------------------------------------------- the aliases of a function --

  function AllAliases(f: Func): map<Name, Name> { Aliases(f.lines, |f.lines|) }

  lemma {:induction false} AliasLine(lines: seq<Line>, n: nat, x: Name) returns (i: nat)
    requires n <= |lines| && x in Aliases(lines, n)
    ensures i < n && Elides(lines, i) && lines[i].dest == Some(x) && Aliases(lines, n)[x] == lines[i].uses[0]
  {
    i := n - 1;
    if !(Elides(lines, i) && lines[i].dest.value == x) {
      i := AliasLine(lines, i, x);
    }
  }

  lemma {:induction false} ElidedHasAlias(lines: seq<Line>, n: nat, i: nat)
    requires i < n <= |lines| && Elides(lines, i)
    ensures lines[i].dest.value in Aliases(lines, n)
  {
    if i < n - 1 {
      ElidedHasAlias(lines, n - 1, i);
    }
  }

  lemma ElidedAlias(f: Func, i: nat)
    requires Ssa(f) && i < |f.lines| && Elides(f.lines, i)
    ensures f.lines[i].dest.value in AllAliases(f) && AllAliases(f)[f.lines[i].dest.value] == f.lines[i].uses[0]
  {
    var x := f.lines[i].dest.value;
    ElidedHasAlias(f.lines, |f.lines|, i);
    var j := AliasLine(f.lines, |f.lines|, x);
    assert Defines(f, i, x) && Defines(f, j, x);
  }

  /** The aliases of a function have no cycle: along a path to its definition, each alias leads
      to a name that was defined before. */
  lemma {:induction false} ChainEnds(f: Func, p: seq<nat>, x: Name, i: nat)
    requires Ssa(f) && Path(f, p) && i < |p| && Defines(f, p[i], x)
    ensures Ends(AllAliases(f), x)
    decreases i
  {
    var aliases := AllAliases(f);
    if x !in aliases {
      assert Chase(aliases, x, 0) !in aliases;
    } else {
      var d := AliasLine(f.lines, |f.lines|, x);
      assert Defines(f, d, x);
      var src := aliases[x];
      assert src in f.lines[d].uses;
      if src in f.params {
        ParamEnds(f, src);
      } else {
        var e: nat :| Defines(f, e, src) && Dominates(f, e, d);
        DominatesAt(f, p, e, d, i);
        var j := First(p[..i], e);
        ChainEnds(f, p, src, j);
      }
      RootStep(aliases, x);
    }
  }

  lemma ParamEnds(f: Func, x: Name)
    requires Ssa(f) && x in f.params
    ensures x !in AllAliases(f) && Ends(AllAliases(f), x)
  {
    if x in AllAliases(f) {
      var d := AliasLine(f.lines, |f.lines|, x);
      assert Defines(f, d, x);
    }
    assert Chase(AllAliases(f), x, 0) == x;
  }

  /** The lines of a circle of aliases cannot be reached. */
  lemma CircleUnreachable(f: Func, x: Name, d: nat)
    requires Ssa(f) && Defines(f, d, x) && Circles(AllAliases(f), x)
    ensures !Reachable(f, d)
  {
    EndsExactly(AllAliases(f), x);
    if Reachable(f, d) {
      var p :| Path(f, p) && p[|p| - 1] == d;
      ChainEnds(f, p, x, |p| - 1);
    }
  }

  lemma {:induction false} AliasesAreWords(f: Func, n: nat)
    requires WellFormed(f) && n <= |f.lines|
    ensures WordAliases(Aliases(f.lines, n))
    decreases n
  {
    hide Types;
    if n > 0 {
      AliasesAreWords(f, n - 1);
      assert Elides(f.lines, n - 1) ==> IsCast(f.lines[n - 1]);
    }
  }

  /** `g` can come out of the pass: what is not elided is rewritten. On lines that cannot be reached a name may
      become one alias of a circle or another. */
  ghost predicate Cleaned(f: Func, g: Func) {
    && |g.lines| == |f.lines| && g.next == f.next && g.params == f.params
    && forall i :: 0 <= i < |f.lines| ==>
         if Elides(f.lines, i) then g.lines[i] == ELIDED else LineRewritten(AllAliases(f), f.lines[i], g.lines[i])
  }

  ghost predicate Occurs(f: Func, x: Name) {
    x in f.params || exists i :: 0 <= i < |f.lines| && OccursOn(f.lines[i], x)
  }

  ghost predicate OccursOn(l: Line, x: Name) {
    DefinedOn(l, x) || x in l.uses || exists k, e {:trigger e in l.phis[k].incoming} ::
      0 <= k < |l.phis| && e in l.phis[k].incoming && e.value == x
  }

  /** No other name of the function is an alias followed by something that is no word character. */
  ghost predicate NoneDotted(f: Func) { forall x :: Occurs(f, x) && Stem(x) in AllAliases(f) ==> Stem(x) == x }

  // -------------------------------------------------------------------------- running --

  datatype Val = Val(ty: Ty, bits: int)
  type Env = map<Name, Val>
  type Mem = map<int, int>
  /** Control is at line `pc` and came from line `from`. */
  datatype State = State(pc: nat, from: nat, env: Env, mem: Mem)

  /** What the instructions do, apart from the names of their operands. Constants are part of the
      instruction. A cast of a value that has the target type already is that value. */
  datatype Meaning = Meaning(
    result: (nat, seq<Val>, Mem) -> Val,
    store: (nat, seq<Val>, Mem) -> Mem,
    goto: (nat, seq<Val>, Mem) -> nat,
    convert: (nat, Val) -> Val,
    constant: (nat, nat, nat) -> Val)

  function Get(env: Env, x: Name): Val { if x in env then env[x] else Val("", 0) }

  function GetAll(env: Env, xs: seq<Name>): (vs: seq<Val>)
    ensures |vs| == |xs| && forall i :: 0 <= i < |xs| ==> vs[i] == Get(env, xs[i])
  {
    seq(|xs|, i requires 0 <= i < |xs| => Get(env, xs[i]))
  }

  /** The value for the edge from line `from`, if that is not a constant. */
  function Incoming(edges: seq<Edge>, from: nat): (v: Option<Name>)
    ensures v.Some? ==> Edge(from, v.value) in edges
  {
    if edges == [] then None
    else if edges[0].from == from then Some(edges[0].value)
    else Incoming(edges[1..], from)
  }

  /** What phi `k` of the line takes. */
  function Taken(l: Line, k: nat, m: Meaning, s: State): Val
    requires k < |l.phis|
  {
    var x := Incoming(l.phis[k].incoming, s.from);
    if x.Some? then Get(s.env, x.value) else m.constant(s.pc, k, s.from)
  }

  /** All phis take their values from the environment before them. */
  function PhiEnv(l: Line, n: nat, m: Meaning, s: State): Env
    requires n <= |l.phis|
  {
    if n == 0 then s.env else PhiEnv(l, n - 1, m, s)[l.phis[n - 1].dest := Taken(l, n - 1, m, s)]
  }

  function Step(f: Func, m: Meaning, s: State): State {
    if s.pc >= |f.lines| then s else
      var l := f.lines[s.pc];
      match l.kind
      case Elided => s.(pc := s.pc + 1, from := s.pc)
      case Cast(_, dstTy) =>
        var v := if l.uses == [] then Val("", 0) else Get(s.env, l.uses[0]);
        var w := if v.ty == dstTy then v else m.convert(s.pc, v);
        State(s.pc + 1, s.pc, if l.dest.Some? then s.env[l.dest.value := w] else s.env, s.mem)
      case _ =>
        var vs := GetAll(s.env, l.uses);
        State(m.goto(s.pc, vs, s.mem), s.pc,
              if l.dest.Some? then s.env[l.dest.value := m.result(s.pc, vs, s.mem)] else PhiEnv(l, |l.phis|, m, s),
              m.store(s.pc, vs, s.mem))
  }

  function Run(f: Func, m: Meaning, s: State, n: nat): State {
    if n == 0 then s else Step(f, m, Run(f, m, s, n - 1))
  }

  /** Control only goes where the function says, and each name `x` holds values of type `ty(x)`. */
  ghost predicate Fitting(f: Func, m: Meaning, ty: Name -> Ty) {
    && (forall i: nat, vs, mem {:trigger m.goto(i, vs, mem)} ::
          i < |f.lines| && !f.lines[i].kind.Cast? ==> i < |f.next| && m.goto(i, vs, mem) in f.next[i])
    && (forall i: nat, vs, mem {:trigger m.result(i, vs, mem)} ::
          i < |f.lines| && f.lines[i].dest.Some? && !f.lines[i].kind.Cast? ==>
            m.result(i, vs, mem).ty == ty(f.lines[i].dest.value))
    && (forall i: nat, v {:trigger m.convert(i, v)} ::
          i < |f.lines| && f.lines[i].kind.Cast? ==> m.convert(i, v).ty == f.lines[i].kind.dstTy)
    && (forall i: nat, k: nat, j {:trigger m.constant(i, k, j)} ::
          i < |f.lines| && k < |f.lines[i].phis| ==> m.constant(i, k, j).ty == ty(f.lines[i].phis[k].dest))
  }

  /** The types that the text states are the types of the names. A cast may state a wrong source
      type if the right one is tracked: that is what the pass repairs. */
  ghost predicate TypesRight(f: Func, ty: Name -> Ty) {
    forall i :: 0 <= i < |f.lines| ==> LineTypes(f.lines, i, ty)
  }

  ghost predicate LineTypes(lines: seq<Line>, i: nat, ty: Name -> Ty)
    requires i < |lines|
  {
    var l := lines[i];
    && (l.dest.Some? && l.kind.Typed? ==> l.kind.ty == ty(l.dest.value))
    && (l.dest.Some? && l.kind.Cast? ==> l.kind.dstTy == ty(l.dest.value))
    && (l.kind.Cast? && l.uses != [] && l.uses[0] !in Types(lines, i) ==> l.kind.srcTy == ty(l.uses[0]))
    && (forall k, e {:trigger e in l.phis[k].incoming} ::
          0 <= k < |l.phis| && e in l.phis[k].incoming ==> ty(e.value) == ty(l.phis[k].dest))
  }

  lemma {:induction false} TrackedRight(lines: seq<Line>, n: nat, ty: Name -> Ty)
    requires n <= |lines| && forall i :: 0 <= i < n ==> LineTypes(lines, i, ty)
    ensures forall x :: x in Types(lines, n) ==> Types(lines, n)[x] == ty(x)
  {
    if n > 0 {
      TrackedRight(lines, n - 1, ty);
      assert LineTypes(lines, n - 1, ty);
    }
  }

  lemma ElidesRight(f: Func, i: nat, ty: Name -> Ty)
    requires TypesRight(f, ty) && i < |f.lines| && Elides(f.lines, i)
    ensures ty(f.lines[i].uses[0]) == f.lines[i].kind.dstTy == ty(f.lines[i].dest.value)
  {
    TrackedRight(f.lines, i, ty);
    assert LineTypes(f.lines, i, ty);
  }

  // ----------------------------------------------------------------------- simulation --

  /** Since line `j` of the path, where `x` was made from `src`, `src` was not defined again. */
  ghost predicate Current(f: Func, p: seq<nat>, j: nat, src: Name) {
    forall k :: j < k < |p| - 1 ==> !Defines(f, p[k], src)
  }

  /** Line `j` of the path is a cast that is dropped, and the alias it made is current. */
  ghost predicate AliasCurrent(f: Func, p: seq<nat>, j: nat) {
    j < |p| && p[j] < |f.lines| && Elides(f.lines, p[j]) && Current(f, p, j, f.lines[p[j]].uses[0])
  }

  /** The alias made on line `i` has the value of its source. */
  ghost predicate Alike(f: Func, env: Env, i: nat) {
    && i < |f.lines| && Elides(f.lines, i)
    && var x, src := f.lines[i].dest.value, f.lines[i].uses[0];
       x in env && src in env && env[x] == env[src]
  }

  /** What holds on the way: the path `p` led here, every name defined on it has a value of its
      type, and an alias has the value of its source as long as that is current. */
  ghost predicate Holds(f: Func, ty: Name -> Ty, p: seq<nat>, env: Env) {
    && Path(f, p)
    && (forall x :: x in f.params ==> x in env)
    && (forall x :: x in env ==> env[x].ty == ty(x))
    && (forall j, x :: 0 <= j < |p| - 1 && Defines(f, p[j], x) ==> x in env)
    && (forall j :: 0 <= j < |p| - 1 && AliasCurrent(f, p, j) ==> Alike(f, env, p[j]))
  }

  /** On the lines without casts the same happens: all other names have the same values, aliases have none. */
  ghost predicate Same(aliases: map<Name, Name>, env: Env, env': Env) {
    forall x :: if x in aliases then x !in env' else (x in env <==> x in env') && (x in env ==> env[x] == env'[x])
  }

  /** A name that was surely defined before the end of a path has the value of its root there. */
  lemma {:induction false} RootValue(f: Func, ty: Name -> Ty, p: seq<nat>, env: Env, x: Name, i: nat)
    requires Ssa(f) && Holds(f, ty, p, env) && i < |p| - 1 && Defines(f, p[i], x) && Sure(f, p[i], p)
    ensures Ends(AllAliases(f), x) && x in env && Root(AllAliases(f), x) in env && env[Root(AllAliases(f), x)] == env[x]
    decreases i
  {
    var aliases := AllAliases(f);
    ChainEnds(f, p, x, i);
    if x in aliases {
      var d := AliasLine(f.lines, |f.lines|, x);
      assert Defines(f, d, x) && d == p[i];
      var src := aliases[x];
      assert src in f.lines[d].uses;
      if src in f.params {
        ParamEnds(f, src);
        ParamCurrent(f, p, i, src);
      } else {
        var e: nat :| Defines(f, e, src) && Dominates(f, e, d);
        SureTransitive(f, e, d, p);
        DominatesAt(f, p, e, d, i);
        var i' := First(p[..i], e);
        RootValue(f, ty, p, env, src, i');
        var j := Renewed(f, p, e, d);
        SourceCurrent(f, p, j, e, src);
      }
      RootStep(aliases, x);
    }
  }

  lemma ParamCurrent(f: Func, p: seq<nat>, j: nat, src: Name)
    requires Ssa(f) && src in f.params
    ensures Current(f, p, j, src)
  {}

  lemma SourceCurrent(f: Func, p: seq<nat>, j: nat, e: nat, src: Name)
    requires Ssa(f) && j < |p| - 1 && Defines(f, e, src) && e !in p[j + 1..|p| - 1]
    ensures Current(f, p, j, src)
  {
    forall k | j < k < |p| - 1 ensures !Defines(f, p[k], src) {
      assert p[k] == p[j + 1..|p| - 1][k - j - 1];
    }
  }

  /** Every name that was surely defined has the value of its root. */
  lemma SureValue(f: Func, ty: Name -> Ty, p: seq<nat>, env: Env, x: Name, d: nat)
    requires Ssa(f) && Holds(f, ty, p, env) && Defines(f, d, x) && Sure(f, d, p)
    ensures Ends(AllAliases(f), x) && x in env && Root(AllAliases(f), x) in env && env[Root(AllAliases(f), x)] == env[x]
  {
    assert SameLast(p, p);
    var i := First(p[..|p| - 1], d);
    RootValue(f, ty, p, env, x, i);
  }

  /** So has every use. */
  lemma UseValue(f: Func, ty: Name -> Ty, p: seq<nat>, env: Env, x: Name)
    requires Ssa(f) && Holds(f, ty, p, env) && p[|p| - 1] < |f.lines| && x in f.lines[p[|p| - 1]].uses
    ensures Ends(AllAliases(f), x) && x in env && Root(AllAliases(f), x) in env && env[Root(AllAliases(f), x)] == env[x]
  {
    if x in f.params {
      ParamEnds(f, x);
    } else {
      var d: nat :| Defines(f, d, x) && Dominates(f, d, p[|p| - 1]);
      SureValue(f, ty, p, env, x, d);
    }
  }

  /** And so has the value that a phi takes. */
  lemma PhiValue(f: Func, ty: Name -> Ty, p: seq<nat>, env: Env, k: nat, e: Edge)
    requires Ssa(f) && Holds(f, ty, p, env) && |p| > 1 && p[|p| - 1] < |f.lines| && k < |f.lines[p[|p| - 1]].phis|
    requires e in f.lines[p[|p| - 1]].phis[k].incoming && e.from == p[|p| - 2]
    ensures var x := e.value;
            Ends(AllAliases(f), x) && x in env && Root(AllAliases(f), x) in env && env[Root(AllAliases(f), x)] == env[x]
  {
    if e.value in f.params {
      ParamEnds(f, e.value);
    } else {
      assert PhiSsa(f, f.lines[p[|p| - 1]].phis[k]);
      var d: nat :| Defines(f, d, e.value) && DominatesEnd(f, d, e.from);
      SureEnd(f, d, p);
      SureValue(f, ty, p, env, e.value, d);
    }
  }

  // ------------------------------------------------------------------- what is rewritten --

  /** Without dotted names, a name is replaced by its root or left alone. */
  lemma OccursRewritten(f: Func, x: Name, now: Name)
    requires WellFormed(f) && NoneDotted(f) && Occurs(f, x) && Rewritten(AllAliases(f), x, now)
    requires Ends(AllAliases(f), x)
    ensures now == Root(AllAliases(f), x)
  {
    AliasesAreWords(f, |f.lines|);
    if Stem(x) in AllAliases(f) {
      assert Suffix(x) == "";
    }
  }

  /** What a line that is kept defines keeps its name. */
  lemma DefinedKept(f: Func, i: nat, x: Name, now: Name)
    requires WellFormed(f) && Ssa(f) && NoneDotted(f) && i < |f.lines| && !Elides(f.lines, i)
    requires DefinedOn(f.lines[i], x) && Rewritten(AllAliases(f), x, now)
    ensures now == x && x !in AllAliases(f)
  {
    hide Ssa;
    NotAlias(f, i, x);
    assert OccursOn(f.lines[i], x);
  }

  /** The uses have the values of what they are rewritten to. */
  lemma UsesAgree(f: Func, ty: Name -> Ty, p: seq<nat>, env: Env, env': Env, now: seq<Name>)
    requires WellFormed(f) && Ssa(f) && NoneDotted(f) && Holds(f, ty, p, env) && Same(AllAliases(f), env, env')
    requires p[|p| - 1] < |f.lines| && AllRewritten(AllAliases(f), f.lines[p[|p| - 1]].uses, now)
    ensures GetAll(env', now) == GetAll(env, f.lines[p[|p| - 1]].uses)
  {
    var l := f.lines[p[|p| - 1]];
    hide Ssa, Holds, Root, NoneDotted, WellFormed, Rewritten;
    forall k | 0 <= k < |l.uses| ensures Get(env', now[k]) == Get(env, l.uses[k]) {
      UseValue(f, ty, p, env, l.uses[k]);
      assert OccursOn(l, l.uses[k]);
      OccursRewritten(f, l.uses[k], now[k]);
    }
  }

  lemma StepPath(f: Func, m: Meaning, ty: Name -> Ty, p: seq<nat>, s: State)
    requires WellFormed(f) && Fitting(f, m, ty) && Path(f, p) && s.pc == p[|p| - 1] < |f.lines|
    ensures Path(f, p + [Step(f, m, s).pc])
  {
    hide PhiEnv;
    var q := p + [Step(f, m, s).pc];
    forall i | 0 <= i < |q| - 1 ensures q[i] < |f.next| && q[i + 1] in f.next[q[i]] {
      if i < |p| - 1 {
        assert q[i + 1] == p[i + 1];
      }
    }
  }

  /** The last two lines of the path are where control is and where it came from. */
  ghost predicate At(p: seq<nat>, s: State) { p != [] && s.pc == p[|p| - 1] && (|p| > 1 ==> s.from == p[|p| - 2]) }

  /** What the phis of a line change. */
  lemma {:induction false} PhiEnvIs(l: Line, n: nat, m: Meaning, s: State)
    requires n <= |l.phis| && forall j, k :: 0 <= j < k < |l.phis| ==> l.phis[j].dest != l.phis[k].dest
    ensures var env := PhiEnv(l, n, m, s);
            && (forall k :: 0 <= k < n ==> l.phis[k].dest in env && env[l.phis[k].dest] == Taken(l, k, m, s))
            && (forall x :: (forall k :: 0 <= k < n ==> l.phis[k].dest != x) ==>
                  (x in env <==> x in s.env) && (x in env ==> env[x] == s.env[x]))
    decreases n
  {
    hide Taken;
    if n > 0 {
      PhiEnvIs(l, n - 1, m, s);
    }
  }

  /** A phi takes a value of its type. */
  lemma TakenType(f: Func, m: Meaning, ty: Name -> Ty, p: seq<nat>, s: State, k: nat)
    requires WellFormed(f) && Ssa(f) && TypesRight(f, ty) && Fitting(f, m, ty) && Holds(f, ty, p, s.env) && At(p, s)
    requires s.pc < |f.lines| && k < |f.lines[s.pc].phis|
    ensures Taken(f.lines[s.pc], k, m, s).ty == ty(f.lines[s.pc].phis[k].dest)
  {
    var l := f.lines[s.pc];
    var x := Incoming(l.phis[k].incoming, s.from);
    if x.Some? {
      var e := Edge(s.from, x.value);
      LongPath(f, p);
      assert LineTypes(f.lines, s.pc, ty);
      hide Ssa, Fitting, TypesRight, Incoming;
      PhiValue(f, ty, p, s.env, k, e);
      TypeOf(f, ty, p, s.env, x.value);
    }
  }

  lemma LongPath(f: Func, p: seq<nat>)
    requires WellFormed(f) && Path(f, p) && p[|p| - 1] < |f.lines| && f.lines[p[|p| - 1]].phis != []
    ensures |p| > 1
  {}

  /** An executed line gives its names values of their types and changes no other; a cast that is dropped gives
      its name the value of its source. */
  ghost predicate Stepped(f: Func, ty: Name -> Ty, s: State, env: Env) {
    && s.pc < |f.lines|
    && (forall x :: if Defines(f, s.pc, x) then x in env && env[x].ty == ty(x)
                    else (x in env <==> x in s.env) && (x in env ==> env[x] == s.env[x]))
    && (Elides(f.lines, s.pc) ==> var l := f.lines[s.pc];
          l.uses[0] in s.env && l.dest.value in env && env[l.dest.value] == s.env[l.uses[0]])
  }

  lemma StepValue(f: Func, m: Meaning, ty: Name -> Ty, p: seq<nat>, s: State)
    requires WellFormed(f) && Ssa(f) && TypesRight(f, ty) && Fitting(f, m, ty) && At(p, s)
    requires Holds(f, ty, p, s.env) && s.pc < |f.lines|
    ensures Stepped(f, ty, s, Step(f, m, s).env)
  {
    var l := f.lines[s.pc];
    if l.phis != [] {
      HeadValue(f, m, ty, p, s);
    } else {
      hide Ssa, Holds, Fitting, Step, Stepped;
      assert LineTypes(f.lines, s.pc, ty);
      if Elides(f.lines, s.pc) {
        ElidesRight(f, s.pc, ty);
        UseValue(f, ty, p, s.env, l.uses[0]);
        TypeOf(f, ty, p, s.env, l.uses[0]);
      }
      LineStepped(f, m, ty, s);
    }
  }

  lemma LineStepped(f: Func, m: Meaning, ty: Name -> Ty, s: State)
    requires WellFormed(f) && Fitting(f, m, ty) && s.pc < |f.lines| && f.lines[s.pc].phis == []
    requires LineTypes(f.lines, s.pc, ty)
    requires Elides(f.lines, s.pc) ==>
               var l := f.lines[s.pc];
               l.kind.Cast? && |l.uses| == 1 && l.uses[0] in s.env && s.env[l.uses[0]].ty == l.kind.dstTy
    ensures Stepped(f, ty, s, Step(f, m, s).env)
  {
    hide PhiEnv;
    NoPhis(f.lines[s.pc], m, s);
  }

  lemma NoPhis(l: Line, m: Meaning, s: State)
    ensures PhiEnv(l, 0, m, s) == s.env
  {}

  lemma HeadValue(f: Func, m: Meaning, ty: Name -> Ty, p: seq<nat>, s: State)
    requires WellFormed(f) && Ssa(f) && TypesRight(f, ty) && Fitting(f, m, ty) && At(p, s)
    requires Holds(f, ty, p, s.env) && s.pc < |f.lines| && f.lines[s.pc].phis != []
    ensures Stepped(f, ty, s, Step(f, m, s).env)
  {
    PhisDistinct(f, s.pc);
    hide Holds, Ssa, Fitting, TypesRight, Taken, PhiEnv, WellFormed, Step, Types, Elides, DefinedOn, Stepped, At;
    var l := f.lines[s.pc];
    PhiEnvIs(l, |l.phis|, m, s);
    forall k | 0 <= k < |l.phis| ensures Taken(l, k, m, s).ty == ty(l.phis[k].dest) {
      TakenType(f, m, ty, p, s, k);
    }
    HeadStep(f, m, s);
    HeadStepped(f, ty, s, Step(f, m, s).env);
  }

  lemma HeadStepped(f: Func, ty: Name -> Ty, s: State, env: Env)
    requires s.pc < |f.lines| && !Elides(f.lines, s.pc)
    requires var l := f.lines[s.pc];
             && (forall x :: Defines(f, s.pc, x) <==> exists k :: 0 <= k < |l.phis| && l.phis[k].dest == x)
             && (forall k :: 0 <= k < |l.phis| ==>
                  l.phis[k].dest in env && env[l.phis[k].dest].ty == ty(l.phis[k].dest))
             && (forall x :: (forall k :: 0 <= k < |l.phis| ==> l.phis[k].dest != x) ==>
                  (x in env <==> x in s.env) && (x in env ==> env[x] == s.env[x]))
    ensures Stepped(f, ty, s, env)
  {
    hide DefinedOn, Elides;
  }

  lemma PhisDistinct(f: Func, i: nat)
    requires Ssa(f) && i < |f.lines|
    ensures forall j, k :: 0 <= j < k < |f.lines[i].phis| ==> f.lines[i].phis[j].dest != f.lines[i].phis[k].dest
  {}

  lemma HeadStep(f: Func, m: Meaning, s: State)
    requires WellFormed(f) && s.pc < |f.lines| && f.lines[s.pc].phis != []
    ensures var l := f.lines[s.pc];
            && Step(f, m, s).env == PhiEnv(l, |l.phis|, m, s) && !Elides(f.lines, s.pc)
            && forall x :: Defines(f, s.pc, x) <==> exists k :: 0 <= k < |l.phis| && l.phis[k].dest == x
  {
    hide PhiEnv, Types;
  }

  lemma TypeOf(f: Func, ty: Name -> Ty, p: seq<nat>, env: Env, x: Name)
    requires Holds(f, ty, p, env) && x in env
    ensures env[x].ty == ty(x)
  {}

  /** After a step an alias that is current still has the value of its source. */
  lemma StepAlias(f: Func, ty: Name -> Ty, p: seq<nat>, s: State, pc: nat, env: Env, j: nat)
    requires WellFormed(f) && Ssa(f) && Holds(f, ty, p, s.env) && At(p, s) && Stepped(f, ty, s, env)
    requires j < |p| && AliasCurrent(f, p + [pc], j)
    ensures Alike(f, env, p[j])
  {
    assert (p + [pc])[j] == p[j];
    CastDefines(f, p[j]);
    if j < |p| - 1 {
      AliasKept(f, ty, p, s, pc, env, j);
    } else {
      hide WellFormed, Dominates, Path, DefinedOn, Ssa;
      var x, src := f.lines[p[j]].dest.value, f.lines[p[j]].uses[0];
      assert Defines(f, p[j], src) <==> src == x;
    }
  }

  lemma AliasKept(f: Func, ty: Name -> Ty, p: seq<nat>, s: State, pc: nat, env: Env, j: nat)
    requires WellFormed(f) && Ssa(f) && Holds(f, ty, p, s.env) && At(p, s) && Stepped(f, ty, s, env)
    requires j < |p| - 1 && AliasCurrent(f, p + [pc], j)
    ensures Alike(f, env, p[j])
  {
    CurrentBefore(f, p, pc, j);
    CastDefines(f, p[j]);
    HoldsAlike(f, ty, p, s.env, j);
    hide WellFormed, Path, Elides, DefinedOn, Ssa, Holds, Current, AliasCurrent;
    var x, src := f.lines[p[j]].dest.value, f.lines[p[j]].uses[0];
    assert !Defines(f, s.pc, src);
    AliasElsewhere(f, s.pc, p[j], x, src);
  }

  lemma CurrentBefore(f: Func, p: seq<nat>, pc: nat, j: nat)
    requires j < |p| - 1 && AliasCurrent(f, p + [pc], j)
    ensures AliasCurrent(f, p, j) && !Defines(f, p[|p| - 1], f.lines[p[j]].uses[0])
  {
    hide Elides, DefinedOn;
    var q, n := p + [pc], |p| - 1;
    assert q[j] == p[j] && q[n] == p[n] && forall k :: j < k < n ==> q[k] == p[k];
  }

  lemma HoldsAlike(f: Func, ty: Name -> Ty, p: seq<nat>, env: Env, j: nat)
    requires Holds(f, ty, p, env) && j < |p| - 1 && AliasCurrent(f, p, j)
    ensures Alike(f, env, p[j])
  {
    hide AliasCurrent, Alike, Path;
  }

  /** Another line does not define the alias; the same line defines its source, too, only if both are one. */
  lemma AliasElsewhere(f: Func, i: nat, j: nat, x: Name, src: Name)
    requires Ssa(f) && Defines(f, j, x)
    ensures Defines(f, i, x) ==> i == j
  {}

  lemma CastDefines(f: Func, i: nat)
    requires WellFormed(f) && i < |f.lines| && Elides(f.lines, i)
    ensures forall x :: Defines(f, i, x) <==> x == f.lines[i].dest.value
  {}

  lemma StepHolds(f: Func, m: Meaning, ty: Name -> Ty, p: seq<nat>, s: State)
    requires WellFormed(f) && Ssa(f) && TypesRight(f, ty) && Fitting(f, m, ty) && At(p, s)
    requires Holds(f, ty, p, s.env) && s.pc < |f.lines|
    ensures Holds(f, ty, p + [Step(f, m, s).pc], Step(f, m, s).env)
  {
    StepPath(f, m, ty, p, s);
    StepValue(f, m, ty, p, s);
    hide Fitting, TypesRight, WellFormed, Ssa, Path, Step, AliasCurrent, Alike, Elides, DefinedOn;
    var s1, q, n := Step(f, m, s), p + [Step(f, m, s).pc], |p| - 1;
    forall j, x | 0 <= j < |q| - 1 && Defines(f, q[j], x) ensures x in s1.env {
      assert q[j] == p[j];
    }
    forall j | 0 <= j < |q| - 1 && AliasCurrent(f, q, j) ensures Alike(f, s1.env, q[j]) {
      assert q[j] == p[j];
      StepAlias(f, ty, p, s, s1.pc, s1.env, j);
    }
  }

  lemma {:induction false} RunHolds(f: Func, m: Meaning, ty: Name -> Ty, s: State, n: nat) returns (p: seq<nat>)
    requires WellFormed(f) && Ssa(f) && TypesRight(f, ty) && Fitting(f, m, ty) && f.lines != []
    requires s.pc == 0 && s.env.Keys == f.params && forall x :: x in s.env ==> s.env[x].ty == ty(x)
    ensures Holds(f, ty, p, Run(f, m, s, n).env) && At(p, Run(f, m, s, n))
  {
    hide Step, WellFormed, Ssa, TypesRight, Fitting;
    if n == 0 {
      p := [0];
    } else {
      p := RunHolds(f, m, ty, s, n - 1);
      var before := Run(f, m, s, n - 1);
      if before.pc < |f.lines| {
        StepHolds(f, m, ty, p, before);
        StepFrom(f, m, before);
        p := p + [Step(f, m, before).pc];
      } else {
        Stopped(f, m, before);
      }
    }
  }

  lemma StepFrom(f: Func, m: Meaning, s: State)
    requires s.pc < |f.lines|
    ensures Step(f, m, s).from == s.pc
  {}

  lemma Stopped(f: Func, m: Meaning, s: State)
    requires s.pc >= |f.lines|
    ensures Step(f, m, s) == s
  {}

  lemma NotAlias(f: Func, i: nat, x: Name)
    requires Ssa(f) && i < |f.lines| && !Elides(f.lines, i) && DefinedOn(f.lines[i], x)
    ensures x !in AllAliases(f)
  {
    if x in AllAliases(f) {
      var j := AliasLine(f.lines, |f.lines|, x);
      assert Defines(f, i, x) && Defines(f, j, x);
    }
  }

  lemma SameElided(aliases: map<Name, Name>, env: Env, env': Env, x: Name, v: Val)
    requires Same(aliases, env, env') && x in aliases
    ensures Same(aliases, env[x := v], env')
  {}

  lemma SameBoth(aliases: map<Name, Name>, env: Env, env': Env, x: Name, v: Val)
    requires Same(aliases, env, env') && x !in aliases
    ensures Same(aliases, env[x := v], env'[x := v])
  {}

  lemma SameGet(aliases: map<Name, Name>, env: Env, env': Env, x: Name)
    requires Same(aliases, env, env') && Ends(aliases, x) && x in env
    requires Root(aliases, x) in env && env[Root(aliases, x)] == env[x]
    ensures Get(env', Root(aliases, x)) == Get(env, x)
  {
    hide Ends;
  }

  /** The edge that a phi takes is rewritten, not exchanged. */
  lemma {:induction false} IncomingRewritten(aliases: map<Name, Name>, was: seq<Edge>, now: seq<Edge>, from: nat)
    requires |now| == |was|
    requires forall i :: 0 <= i < |was| ==> now[i].from == was[i].from && Rewritten(aliases, was[i].value, now[i].value)
    ensures var x, x' := Incoming(was, from), Incoming(now, from);
            (x.Some? <==> x'.Some?) && (x.Some? ==> Rewritten(aliases, x.value, x'.value))
    decreases |was|
  {
    hide Rewritten;
    if was != [] && was[0].from != from {
      IncomingRewritten(aliases, was[1..], now[1..], from);
    }
  }

  /** Both functions are at the same line, and came from the same line, with the same memory. */
  ghost predicate Together(f: Func, s: State, s': State) {
    s'.pc == s.pc && s'.from == s.from && s'.mem == s.mem && Same(AllAliases(f), s.env, s'.env)
  }

  lemma TakenSame(f: Func, g: Func, m: Meaning, ty: Name -> Ty, p: seq<nat>, s: State, s': State, k: nat)
    requires WellFormed(f) && Ssa(f) && NoneDotted(f) && Cleaned(f, g) && Holds(f, ty, p, s.env) && At(p, s)
    requires Together(f, s, s')
    requires s.pc < |f.lines| && !Elides(f.lines, s.pc) && k < |f.lines[s.pc].phis| == |g.lines[s.pc].phis|
    ensures Taken(g.lines[s.pc], k, m, s') == Taken(f.lines[s.pc], k, m, s)
    ensures g.lines[s.pc].phis[k].dest == f.lines[s.pc].phis[k].dest && f.lines[s.pc].phis[k].dest !in AllAliases(f)
  {
    var l, l' := f.lines[s.pc], g.lines[s.pc];
    var phi, phi' := l.phis[k], l'.phis[k];
    assert PhiRewritten(AllAliases(f), phi, phi');
    assert DefinedOn(l, phi.dest);
    LongPath(f, p);
    hide WellFormed, Ssa, NoneDotted, Holds, Same, Cleaned, Rewritten, Incoming, Elides;
    DefinedKept(f, s.pc, phi.dest, phi'.dest);
    IncomingRewritten(AllAliases(f), phi.incoming, phi'.incoming, s.from);
    var x, x' := Incoming(phi.incoming, s.from), Incoming(phi'.incoming, s.from);
    if x.Some? {
      var e := Edge(s.from, x.value);
      PhiValue(f, ty, p, s.env, k, e);
      assert e in l.phis[k].incoming;
      assert OccursOn(l, x.value);
      OccursRewritten(f, x.value, x'.value);
      SameGet(AllAliases(f), s.env, s'.env, x.value);
    }
  }

  lemma {:induction false} PhisSame(aliases: map<Name, Name>, l: Line, l': Line, m: Meaning, s: State, s': State,
                                    n: nat)
    requires Same(aliases, s.env, s'.env) && n <= |l.phis| == |l'.phis|
    requires forall k :: 0 <= k < n ==> Taken(l', k, m, s') == Taken(l, k, m, s)
    requires forall k :: 0 <= k < n ==> l'.phis[k].dest == l.phis[k].dest && l.phis[k].dest !in aliases
    ensures Same(aliases, PhiEnv(l, n, m, s), PhiEnv(l', n, m, s'))
    decreases n
  {
    hide Same, Taken;
    if n > 0 {
      PhisSame(aliases, l, l', m, s, s', n - 1);
      SameBoth(aliases, PhiEnv(l, n - 1, m, s), PhiEnv(l', n - 1, m, s'), l.phis[n - 1].dest, Taken(l, n - 1, m, s));
    }
  }

  /** One step of both functions. */
  lemma StepSame(f: Func, g: Func, m: Meaning, ty: Name -> Ty, p: seq<nat>, s: State, s': State)
    requires WellFormed(f) && Ssa(f) && NoneDotted(f) && Cleaned(f, g) && TypesRight(f, ty) && Fitting(f, m, ty)
    requires Holds(f, ty, p, s.env) && At(p, s) && s.pc < |f.lines| && Together(f, s, s')
    ensures Together(f, Step(f, m, s), Step(g, m, s'))
  {
    if Elides(f.lines, s.pc) {
      StepElided(f, g, m, ty, p, s, s');
    } else {
      StepKept(f, g, m, ty, p, s, s');
    }
  }

  lemma StepElided(f: Func, g: Func, m: Meaning, ty: Name -> Ty, p: seq<nat>, s: State, s': State)
    requires WellFormed(f) && Ssa(f) && Cleaned(f, g) && TypesRight(f, ty) && Fitting(f, m, ty)
    requires Holds(f, ty, p, s.env) && At(p, s) && s.pc < |f.lines| && Together(f, s, s') && Elides(f.lines, s.pc)
    ensures Together(f, Step(f, m, s), Step(g, m, s'))
  {
    var l := f.lines[s.pc];
    ElidedAlias(f, s.pc);
    hide Ssa, Holds, Fitting, TypesRight, Same, At, Types;
    SameElided(AllAliases(f), s.env, s'.env, l.dest.value, Step(f, m, s).env[l.dest.value]);
  }

  lemma StepKept(f: Func, g: Func, m: Meaning, ty: Name -> Ty, p: seq<nat>, s: State, s': State)
    requires WellFormed(f) && Ssa(f) && NoneDotted(f) && Cleaned(f, g) && TypesRight(f, ty) && Fitting(f, m, ty)
    requires Holds(f, ty, p, s.env) && At(p, s) && s.pc < |f.lines| && Together(f, s, s') && !Elides(f.lines, s.pc)
    ensures Together(f, Step(f, m, s), Step(g, m, s'))
  {
    var l, l' := f.lines[s.pc], g.lines[s.pc];
    assert LineRewritten(AllAliases(f), l, l') && (l.dest.Some? ==> DefinedOn(l, l.dest.value));
    assert !l.kind.Elided? && (l.kind.Cast? ==> l.uses != []);
    hide Ssa, Holds, Fitting, TypesRight, Same, At, Types, NoneDotted, WellFormed, Cleaned, Elides, Rewritten,
         PhiRewritten, Taken;
    UsesAgree(f, ty, p, s.env, s'.env, l'.uses);
    if l.dest.Some? {
      DefinedKept(f, s.pc, l.dest.value, l'.dest.value);
      DestStep(f, g, m, s, s');
      SameBoth(AllAliases(f), s.env, s'.env, l.dest.value, Step(f, m, s).env[l.dest.value]);
    } else {
      forall k | 0 <= k < |l.phis|
        ensures Taken(l', k, m, s') == Taken(l, k, m, s)
        ensures l'.phis[k].dest == l.phis[k].dest && l.phis[k].dest !in AllAliases(f) {
        TakenSame(f, g, m, ty, p, s, s', k);
      }
      PhisSame(AllAliases(f), l, l', m, s, s', |l.phis|);
      PlainStep(f, g, m, s, s');
    }
  }

  /** A line that defines a name does the same in both functions if its operands have the same values. */
  lemma DestStep(f: Func, g: Func, m: Meaning, s: State, s': State)
    requires s.pc < |f.lines| && s.pc < |g.lines| && s'.pc == s.pc && s'.mem == s.mem
    requires var l, l' := f.lines[s.pc], g.lines[s.pc];
             && l.dest.Some? && l'.dest == l.dest && l'.kind == l.kind && !l.kind.Elided?
             && (l.kind.Cast? ==> l.uses != [])
             && |l'.uses| == |l.uses| && GetAll(s'.env, l'.uses) == GetAll(s.env, l.uses)
    ensures var t, t', x := Step(f, m, s), Step(g, m, s'), f.lines[s.pc].dest.value;
            && t'.pc == t.pc && t'.from == t.from && t'.mem == t.mem && x in t.env
            && t.env == s.env[x := t.env[x]] && t'.env == s'.env[x := t.env[x]]
  {
    var l, l' := f.lines[s.pc], g.lines[s.pc];
    assert l.uses != [] ==> GetAll(s'.env, l'.uses)[0] == GetAll(s.env, l.uses)[0];
  }

  lemma PlainStep(f: Func, g: Func, m: Meaning, s: State, s': State)
    requires s.pc < |f.lines| && s.pc < |g.lines| && s'.pc == s.pc && s'.mem == s.mem
    requires var l, l' := f.lines[s.pc], g.lines[s.pc];
             && l.dest.None? && l'.dest.None? && l'.kind == l.kind && (l.kind.Plain? || l.kind.Typed?)
             && GetAll(s'.env, l'.uses) == GetAll(s.env, l.uses)
    ensures var t, t', l, l' := Step(f, m, s), Step(g, m, s'), f.lines[s.pc], g.lines[s.pc];
            && t'.pc == t.pc && t'.from == t.from && t'.mem == t.mem
            && t.env == PhiEnv(l, |l.phis|, m, s) && t'.env == PhiEnv(l', |l'.phis|, m, s')
  {
    hide PhiEnv;
  }

  /** Cast elision preserves meaning: after any number of steps both functions are at the same line
      with the same memory, and every name that was not elided has the same value. */
  lemma {:induction false} ElisionPreserves(f: Func, g: Func, m: Meaning, ty: Name -> Ty, s: State, n: nat)
    requires WellFormed(f) && Ssa(f) && NoneDotted(f) && Cleaned(f, g) && TypesRight(f, ty) && Fitting(f, m, ty)
    requires f.lines != []
    requires s.pc == 0 && s.env.Keys == f.params && forall x :: x in s.env ==> s.env[x].ty == ty(x)
    ensures Together(f, Run(f, m, s, n), Run(g, m, s, n))
  {
    hide WellFormed, Ssa, Holds, TypesRight, Fitting, Step, Same, NoneDotted;
    if n == 0 {
      StartSame(f, s.env);
    } else {
      ElisionPreserves(f, g, m, ty, s, n - 1);
      var p := RunHolds(f, m, ty, s, n - 1);
      var t, t' := Run(f, m, s, n - 1), Run(g, m, s, n - 1);
      if t.pc < |f.lines| {
        StepSame(f, g, m, ty, p, t, t');
      } else {
        Stopped(f, m, t);
        Stopped(g, m, t');
      }
    }
  }

  lemma StartSame(f: Func, env: Env)
    requires Ssa(f) && env.Keys == f.params
    ensures Same(AllAliases(f), env, env)
  {
    hide Ssa;
    forall x | x in AllAliases(f) ensures x !in env {
      if x in env {
        ParamEnds(f, x);
      }
    }
  }

  /** What a name is rewritten to is no alias if and only if following the aliases from it ends. */
  lemma GoneExactly(f: Func, x: Name, now: Name)
    requires WellFormed(f) && NoneDotted(f) && Occurs(f, x) && Rewritten(AllAliases(f), x, now)
    ensures now !in AllAliases(f) <==> Ends(AllAliases(f), x)
  {
    var aliases := AllAliases(f);
    AliasesAreWords(f, |f.lines|);
    hide WellFormed, Aliases;
    if Stem(x) in aliases {
      assert Suffix(x) == "";
    } else {
      assert x in aliases ==> IsWord(x);
      assert Chase(aliases, x, 0) == x;
    }
  }

  /** On a line that can be reached following the aliases from any operand ends. */
  lemma UseEnds(f: Func, i: nat, x: Name)
    requires Ssa(f) && i < |f.lines| && Reachable(f, i) && x in f.lines[i].uses
    ensures Ends(AllAliases(f), x)
  {
    if x in f.params {
      ParamEnds(f, x);
    } else {
      var p :| Path(f, p) && p[|p| - 1] == i;
      var d: nat :| Defines(f, d, x) && Dominates(f, d, i);
      var j := First(p[..|p| - 1], d);
      ChainEnds(f, p, x, j);
    }
  }

  lemma EdgeEnds(f: Func, i: nat, k: nat, e: Edge)
    requires Ssa(f) && i < |f.lines| && k < |f.lines[i].phis| && e in f.lines[i].phis[k].incoming
    requires Reachable(f, e.from)
    ensures Ends(AllAliases(f), e.value)
  {
    if e.value in f.params {
      ParamEnds(f, e.value);
    } else {
      assert PhiSsa(f, f.lines[i].phis[k]);
      var p :| Path(f, p) && p[|p| - 1] == e.from;
      var d: nat :| Defines(f, d, e.value) && DominatesEnd(f, d, e.from);
      assert d in p by {
        if d != e.from {
          assert d in p[..|p| - 1];
        }
      }
      var j := First(p, d);
      ChainEnds(f, p, e.value, j);
    }
  }

  /** Where control can come, no elided name is used or defined any more; nor is one taken by a phi from a line
      where control can come. */
  lemma ElidedNamesGone(f: Func, g: Func, i: nat)
    requires WellFormed(f) && Ssa(f) && NoneDotted(f) && Cleaned(f, g) && i < |f.lines| && Reachable(f, i)
    ensures var l := g.lines[i];
            && (forall j :: 0 <= j < |l.uses| ==> l.uses[j] !in AllAliases(f))
            && (forall x :: DefinedOn(l, x) ==> x !in AllAliases(f))
            && (forall k, j :: 0 <= k < |l.phis| && 0 <= j < |l.phis[k].incoming| ==>
                  Reachable(f, l.phis[k].incoming[j].from) ==> l.phis[k].incoming[j].value !in AllAliases(f))
  {
    if !Elides(f.lines, i) {
      var aliases, was, l := AllAliases(f), f.lines[i], g.lines[i];
      assert LineRewritten(aliases, was, l);
      hide WellFormed, Ssa, NoneDotted, Cleaned, Elides, Rewritten, Reachable;
      forall j | 0 <= j < |l.uses| ensures l.uses[j] !in aliases {
        assert OccursOn(was, was.uses[j]);
        UseEnds(f, i, was.uses[j]);
        GoneExactly(f, was.uses[j], l.uses[j]);
      }
      forall k | 0 <= k < |l.phis| ensures PhiRewritten(aliases, was.phis[k], l.phis[k]) {}
      DefinedGone(f, g, i);
      forall k, j | 0 <= k < |l.phis| && 0 <= j < |l.phis[k].incoming| && Reachable(f, l.phis[k].incoming[j].from)
        ensures l.phis[k].incoming[j].value !in aliases {
        var e := was.phis[k].incoming[j];
        assert PhiRewritten(aliases, was.phis[k], l.phis[k]);
        assert e in was.phis[k].incoming && OccursOn(was, e.value);
        EdgeEnds(f, i, k, e);
        GoneExactly(f, e.value, l.phis[k].incoming[j].value);
      }
    }
  }

  lemma DefinedGone(f: Func, g: Func, i: nat)
    requires WellFormed(f) && Ssa(f) && NoneDotted(f) && i < |f.lines| && i < |g.lines| && !Elides(f.lines, i)
    requires LineRewritten(AllAliases(f), f.lines[i], g.lines[i])
    ensures forall x :: DefinedOn(g.lines[i], x) ==> x !in AllAliases(f)
  {
    hide WellFormed, Ssa, NoneDotted, Elides, Rewritten;
    var was, l := f.lines[i], g.lines[i];
    if l.dest.Some? {
      DefinedKept(f, i, was.dest.value, l.dest.value);
    }
    forall k | 0 <= k < |l.phis| ensures l.phis[k].dest !in AllAliases(f) {
      assert PhiRewritten(AllAliases(f), was.phis[k], l.phis[k]);
      DefinedKept(f, i, was.phis[k].dest, l.phis[k].dest);
    }
  }

  // ----------------------------------------------------------------------------- examples --

  /** Two casts of each other behind a return: nothing leads to them. */
  function CircularCasts(): Func {
    Func([Line(None, Plain, [], []), Line(Some("%a"), Cast("ptr", "ptr"), ["%b"], []),
          Line(Some("%b"), Cast("ptr", "ptr"), ["%a"], []), Line(None, Plain, [], [])],
         [{}, {2}, {3}, {}], {})
  }

  lemma CircularAliases()
    ensures AllAliases(CircularCasts()) == map["%a" := "%b", "%b" := "%a"]
  {
    var lines := CircularCasts().lines;
    assert Types(lines, 0) == map[] && Types(lines, 1) == map[] && Types(lines, 2) == map["%a" := "ptr"];
    assert Aliases(lines, 0) == map[] && Aliases(lines, 1) == map[] && Aliases(lines, 2) == map["%a" := "%b"];
    assert Aliases(lines, 3) == map["%a" := "%b", "%b" := "%a"];
  }

  lemma FirstHop(f: Func, p: seq<nat>)
    requires Path(f, p) && |p| > 1
    ensures p[0] < |f.next| && p[1] in f.next[p[0]]
  {}

  lemma NothingFollows(f: Func, p: seq<nat>)
    requires Path(f, p) && f.next != [] && f.next[0] == {}
    ensures p == [0]
  {
    if |p| > 1 {
      FirstHop(f, p);
    }
  }

  lemma CircularForm()
    ensures WellFormed(CircularCasts())
  {
    CircularWords();
    hide IsWord;
  }

  lemma CircularWords()
    ensures IsWord("%a") && IsWord("%b")
  {
    WordEndIs("%a", 1, 2);
    WordEndIs("%b", 1, 2);
  }

  lemma CircularDominance(u: nat)
    ensures u > 0 ==> !Reachable(CircularCasts(), u) && forall d :: Dominates(CircularCasts(), d, u)
  {
    var f := CircularCasts();
    forall p | Path(f, p) ensures p[|p| - 1] == 0 { NothingFollows(f, p); }
  }

  lemma CircularDefines(i: nat, x: Name)
    ensures Defines(CircularCasts(), i, x) <==> (i == 1 && x == "%a") || (i == 2 && x == "%b")
  {}

  lemma CircularSsa()
    ensures Ssa(CircularCasts())
  {
    var f := CircularCasts();
    forall i: nat, x
      ensures Defines(f, i, x) <==> (i == 1 && x == "%a") || (i == 2 && x == "%b")
    {
      CircularDefines(i, x);
    }
    CircularDominance(1);
    CircularDominance(2);
    CircularUses();
    hide Path, Dominates, DefinedOn, Defines, Reachable, CircularCasts;
    assert Defines(f, 2, "%b") && Dominates(f, 2, 1);
    assert Defines(f, 1, "%a") && Dominates(f, 1, 2);
  }

  lemma CircularUses()
    ensures var f := CircularCasts();
            && |f.lines| == 4 && f.params == {} && (forall i :: 0 <= i < 4 ==> f.lines[i].phis == [])
            && (forall i, x :: 0 <= i < 4 && x in f.lines[i].uses ==> (i == 1 && x == "%b") || (i == 2 && x == "%a"))
  {}

  /** Such a function is in static single assignment form, and following its aliases never ends. */
  lemma CircleOfAliases()
    ensures var f := CircularCasts();
            WellFormed(f) && Ssa(f) && Circles(AllAliases(f), "%a") && !Ends(AllAliases(f), "%a") && !Reachable(f, 1)
  {
    hide WellFormed, Ssa, Reachable, Aliases;
    var aliases := AllAliases(CircularCasts());
    CircularForm();
    CircularSsa();
    CircularDominance(1);
    CircularAliases();
    assert Chase(aliases, "%a", 2) == Chase(aliases, "%b", 1) == Chase(aliases, "%a", 0);
    assert ReturnsAt(aliases, "%a", 0, 2);
    EndsExactly(aliases, "%a");
  }

  /** The whole pass over a function, with its aliases in any order. */
  method Pass(f: Func, order: seq<Name>) returns (out: array<Line>)
    requires WellFormed(f) && forall x :: x in AllAliases(f) <==> x in order
    ensures fresh(out) && Cleaned(f, f.(lines := out[..]))
  {
    AliasesAreWords(f, |f.lines|);
    hide Types, Aliases, WordAliases, LineRewritten;
    var fixed, aliases := Elide(f.lines);
    out := new Line[|fixed|](i requires 0 <= i < |fixed| => fixed[i]);
    ghost var before := out[..];
    ApplyAliases(out, aliases, order);
    assert forall i :: 0 <= i < |fixed| ==> before[i] == fixed[i];
  }
}
