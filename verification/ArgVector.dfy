/** A fixed-capacity argument vector for a child process, with the strings packed into one arena. */
module ArgVector {
  import opened Options

  const SLOTS := 64
  const ARENA := 4096

  /** The string that begins at `at`: everything up to the next terminator. */
  function TextAt(mem: seq<char>, at: nat): string
    requires at <= |mem|
    decreases |mem| - at
  {
    if at == |mem| || mem[at] == '\0' then "" else [mem[at]] + TextAt(mem, at + 1)
  }

  predicate NoNul(s: string) { '\0' !in s }

  predicate AllNoNul(list: seq<string>) { forall i :: 0 <= i < |list| ==> NoNul(list[i]) }

  /** `s` with its terminator stands at `at`. */
  ghost predicate Spelled(mem: seq<char>, at: nat, s: string) {
    at + |s| < |mem| && mem[at..at + |s|] == s && mem[at + |s|] == '\0' && '\0' !in s
  }

  lemma {:induction false} SpelledText(mem: seq<char>, at: nat, s: string)
    requires Spelled(mem, at, s)
    ensures TextAt(mem, at) == s
    decreases |s|
  {
    if s != "" {
      assert mem[at] == mem[at..at + |s|][0] == s[0];
      assert mem[at + 1..at + 1 + |s[1..]|] == mem[at..at + |s|][1..];
      SpelledText(mem, at + 1, s[1..]);
    }
  }

  /** Where the strings `held` lie one behind the other, the next one would begin. */
  function PlaceOf(held: seq<string>, i: nat): nat
    requires i <= |held|
  {
    if i == 0 then 0 else PlaceOf(held, i - 1) + |held[i - 1]| + 1
  }

  lemma {:induction false} PlacesRise(held: seq<string>, i: nat, j: nat)
    requires i < j <= |held|
    ensures PlaceOf(held, i) + |held[i]| + 1 <= PlaceOf(held, j)
    decreases j
  {
    if i < j - 1 {
      PlacesRise(held, i, j - 1);
    }
  }

  lemma {:induction false} PlacesKept(held: seq<string>, s: string, i: nat)
    requires i <= |held|
    ensures PlaceOf(held + [s], i) == PlaceOf(held, i)
  {
    if i > 0 {
      PlacesKept(held, s, i - 1);
    }
  }

  lemma AddPlace(held: seq<string>, s: string)
    ensures PlaceOf(held + [s], |held| + 1) == PlaceOf(held, |held|) + |s| + 1
    ensures forall i :: 0 <= i <= |held| ==> PlaceOf(held + [s], i) == PlaceOf(held, i)
    ensures forall i :: 0 <= i < |held| ==> PlaceOf(held, i) + |held[i]| < PlaceOf(held, |held|)
  {
    forall i | 0 <= i <= |held| ensures PlaceOf(held + [s], i) == PlaceOf(held, i) { PlacesKept(held, s, i); }
    forall i | 0 <= i < |held|
      ensures PlaceOf(held, i) + |held[i]| < PlaceOf(held, |held|)
    {
      PlacesRise(held, i, |held|);
    }
  }

  /** The slots `v` lead to the strings `held`, and the first free slot ends the vector. */
  ghost predicate Packed(v: seq<Option<nat>>, mem: seq<char>, held: seq<string>) {
    && |held| < |v| && v[|held|] == None && PlaceOf(held, |held|) <= |mem|
    && (forall i :: 0 <= i < |held| ==> v[i] == Some(PlaceOf(held, i)) && Spelled(mem, PlaceOf(held, i), held[i]))
  }

  lemma SpelledKept(mem: seq<char>, mem': seq<char>, at: nat, s: string, used: nat)
    requires Spelled(mem, at, s) && at + |s| < used <= |mem| == |mem'| && mem[..used] == mem'[..used]
    ensures Spelled(mem', at, s)
  {
    assert mem'[at..at + |s|] == mem'[..used][at..at + |s|] == mem[..used][at..at + |s|] == mem[at..at + |s|];
    assert mem'[at + |s|] == mem'[..used][at + |s|] == mem[..used][at + |s|];
  }

  lemma PackedAdd(v: seq<Option<nat>>, mem: seq<char>, mem': seq<char>, held: seq<string>, s: string)
    requires Packed(v, mem, held) && |held| + 1 < |v| && |mem| == |mem'|
    requires var used := PlaceOf(held, |held|); mem[..used] == mem'[..used] && Spelled(mem', used, s)
    ensures Packed(v[|held| := Some(PlaceOf(held, |held|))][|held| + 1 := None], mem', held + [s])
  {
    hide Spelled, PlaceOf;
    AddPlace(held, s);
    SpelledInside(mem', PlaceOf(held, |held|), s);
    forall i | 0 <= i < |held| ensures Spelled(mem', PlaceOf(held, i), held[i]) {
      SpelledKept(mem, mem', PlaceOf(held, i), held[i], PlaceOf(held, |held|));
    }
  }

  lemma SpelledInside(mem: seq<char>, at: nat, s: string)
    requires Spelled(mem, at, s)
    ensures at + |s| + 1 <= |mem|
  {}

  /** More strings, or more characters with terminators, than the vector has room for. */
  predicate TooMuch(strings: seq<string>) { |strings| >= SLOTS || PlaceOf(strings, |strings|) > ARENA }

  class Argv {
    const v: array<Option<nat>>
    const arena: array<char>
    var n: nat
    var overflow: bool
    var used: nat
    ghost var held: seq<string>        // the strings that fitted
    ghost var requested: seq<string>   // the strings that were to be added

    ghost predicate Valid()
      reads this, v, arena
    {
      && v.Length == SLOTS && arena.Length == ARENA
      && n == |held| && used == PlaceOf(held, n) && Packed(v[..], arena[..], held)
      && (!overflow ==> held == requested) && (overflow <==> TooMuch(requested))
    }

    constructor ()
      ensures Valid() && fresh(v) && fresh(arena) && requested == [] && !overflow
    {
      v := new Option<nat>[SLOTS](_ => None);
      arena := new char[ARENA](_ => '\0');
      n, overflow, used, held, requested := 0, false, 0, [], [];
    }

    /** Empties the vector. */
    method Init()
      requires v.Length == SLOTS && arena.Length == ARENA
      modifies this, v
      ensures Valid() && requested == [] && !overflow
    {
      n, overflow, used, held, requested := 0, false, 0, [], [];
      v[0] := None;
    }

    /** What a child process finds in the vector. */
    ghost function Decoded(): seq<string>
      requires Valid()
      reads this, v, arena
    {
      DecodeAll(v[..], arena[..], held)
    }

    /** The vector holds exactly what was added, unless it says that something did not fit. */
    lemma DecodedIsRequested()
      requires Valid()
      ensures Decoded() == held && (!overflow ==> Decoded() == requested)
      ensures overflow <==> TooMuch(requested)
    {
      DecodedIsHeld(v[..], arena[..], held);
    }

    predicate Fits(s: string)
      reads this
    {
      n + 1 < v.Length && used + |s| + 1 <= arena.Length
    }

    method Arg(s: string)
      requires Valid() && NoNul(s)
      modifies this, v, arena
      ensures Valid() && requested == old(requested) + [s]
      ensures held == if old(Fits(s)) then old(held) + [s] else old(held)
    {
      hide Spelled, PlaceOf, Packed;
      AddPlace(requested, s);
      requested := requested + [s];
      if n + 1 >= v.Length || |s| + 1 > arena.Length - used {
        overflow := true;
      } else {
        Copy(s);
        AddPlace(held, s);
        PackedAdd(v[..], old(arena[..]), arena[..], held, s);
        ghost var was := v[..];
        v[n] := Some(used);
        n := n + 1;
        v[n] := None;
        assert v[..] == was[|held| := Some(used)][|held| + 1 := None];
        held := held + [s];
        used := used + |s| + 1;
      }
    }

    method Copy(s: string)
      requires used + |s| < arena.Length && '\0' !in s
      modifies arena
      ensures arena[..used] == old(arena[..used]) && Spelled(arena[..], used, s)
    {
      for i := 0 to |s|
        invariant arena[..used] == old(arena[..used]) && arena[used..used + i] == s[..i]
      {
        arena[used + i] := s[i];
        assert arena[used..used + i + 1] == arena[used..used + i] + [s[i]];
      }
      arena[used + |s|] := '\0';
      assert arena[..][used..used + |s|] == arena[used..used + |s|] == s[..|s|];
    }

    method ArgAll(list: seq<string>)
      requires Valid() && AllNoNul(list)
      modifies this, v, arena
      ensures Valid() && requested == old(requested) + list
    {
      hide Packed, PlaceOf, TooMuch;
      for i := 0 to |list|
        invariant Valid() && requested == old(requested) + list[..i]
      {
        Arg(list[i]);
        assert list[..i + 1] == list[..i] + [list[i]];
      }
      assert list[..|list|] == list;
    }
  }

  /** The strings that the slots lead to. */
  ghost function DecodeAll(v: seq<Option<nat>>, mem: seq<char>, held: seq<string>): (texts: seq<string>)
    requires Packed(v, mem, held)
    ensures |texts| == |held|
    ensures forall i :: 0 <= i < |held| ==> v[i].Some? && v[i].value <= |mem| && texts[i] == TextAt(mem, v[i].value)
  {
    assert forall i :: 0 <= i < |held| ==> Spelled(mem, v[i].value, held[i]);
    seq(|held|, i requires 0 <= i < |held| => TextAt(mem, v[i].value))
  }

  lemma DecodedIsHeld(v: seq<Option<nat>>, mem: seq<char>, held: seq<string>)
    requires Packed(v, mem, held)
    ensures DecodeAll(v, mem, held) == held
  {
    forall i | 0 <= i < |held| ensures TextAt(mem, v[i].value) == held[i] {
      SpelledText(mem, PlaceOf(held, i), held[i]);
    }
  }
}
