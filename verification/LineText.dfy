/** Names in the text of a line: what replacing one of them character by character does to the others. */
module LineText {

  type Name = string

  /** The characters that a word boundary test knows, and those that a name can have. */
  predicate WordChar(c: char) { 'a' <= c <= 'z' || 'A' <= c <= 'Z' || '0' <= c <= '9' || c == '_' }
  predicate NameChar(c: char) { WordChar(c) || c == '.' || c == '-' || c == '$' }

  function WordEnd(x: string, i: nat): (end: nat)
    requires i <= |x|
    ensures i <= end <= |x| && (forall k :: i <= k < end ==> WordChar(x[k])) && (end < |x| ==> !WordChar(x[end]))
    decreases |x| - i
  {
    if i < |x| && WordChar(x[i]) then WordEnd(x, i + 1) else i
  }

  /** The first character of a name and the word behind it. */
  function Stem(x: Name): (s: Name)
    ensures s <= x
  {
    if x == "" then "" else x[..WordEnd(x, 1)]
  }

  function Suffix(x: Name): (s: string)
    ensures x == Stem(x) + s
  {
    x[|Stem(x)|..]
  }

  predicate IsName(x: Name) { |x| > 0 && x[0] == '%' && forall i :: 1 <= i < |x| ==> NameChar(x[i]) }

  /** A percent sign and a word: the names that the pass can read. */
  predicate IsWord(x: Name) { IsName(x) && Stem(x) == x }

  /** A name in which `alias` stands and ends at the end of a word. */
  function Replaced(x: Name, alias: Name, by': Name): Name {
    if Stem(x) == alias then by' + Suffix(x) else x
  }

  lemma {:induction false} WordEndIs(x: string, i: nat, end: nat)
    requires i <= end <= |x| && (forall k :: i <= k < end ==> WordChar(x[k])) && (end < |x| ==> !WordChar(x[end]))
    ensures WordEnd(x, i) == end
    decreases end - i
  {
    if i < end {
      WordEndIs(x, i + 1, end);
    }
  }

  /** A word in front of what does not go on with it is the stem again. */
  lemma StemOf(w: Name, rest: string)
    requires IsWord(w) && (rest != "" ==> !WordChar(rest[0]))
    ensures Stem(w + rest) == w && Suffix(w + rest) == rest
  {
    var x := w + rest;
    assert forall k :: 1 <= k < |w| ==> x[k] == w[k] && WordChar(w[k]);
    assert |w| < |x| ==> x[|w|] == rest[0];
    WordEndIs(x, 1, |w|);
  }

  lemma SuffixStops(x: Name)
    ensures Suffix(x) != "" && x != "" ==> !WordChar(Suffix(x)[0])
  {}

  // ---------------------------------------------------------------------------- the text --

  /** `alias` stands at the beginning of the text, and no word character follows. */
  predicate Matches(text: string, alias: Name) {
    alias <= text && (|alias| < |text| ==> !WordChar(text[|alias|]))
  }

  /** From left to right, each place at which `alias` matches is replaced. */
  function Sub(text: string, alias: Name, by': Name): string
    requires alias != ""
    decreases |text|
  {
    if text == "" then ""
    else if Matches(text, alias) then by' + Sub(text[|alias|..], alias, by')
    else [text[0]] + Sub(text[1..], alias, by')
  }

  /** A line: names, and what stands between them. */
  datatype Piece = Other(text: string) | Ref(name: Name)

  function Render(ps: seq<Piece>): string {
    if ps == [] then "" else (match ps[0] case Other(t) => t case Ref(n) => n) + Render(ps[1..])
  }

  /** Nothing that could belong to a name stands behind it. */
  predicate Stops(rest: string) { rest != "" ==> !NameChar(rest[0]) && rest[0] != '%' }

  /** Percent signs begin names, and every name is followed by something else. */
  predicate Spelled(ps: seq<Piece>) {
    ps == [] || (Spelled(ps[1..]) && match ps[0]
                                     case Other(t) => '%' !in t
                                     case Ref(n) => IsName(n) && Stops(Render(ps[1..])))
  }

  function Mapped(ps: seq<Piece>, f: Name -> Name): (qs: seq<Piece>)
    ensures |qs| == |ps|
    ensures forall i :: 0 <= i < |ps| ==> qs[i] == match ps[i] case Other(_) => ps[i] case Ref(n) => Ref(f(n))
  {
    if ps == [] then [] else [match ps[0] case Other(_) => ps[0] case Ref(n) => Ref(f(n))] + Mapped(ps[1..], f)
  }

  /** Text without a percent sign is left alone. */
  lemma {:induction false} SubSkips(t: string, rest: string, alias: Name, by': Name)
    requires IsName(alias) && '%' !in t
    ensures Sub(t + rest, alias, by') == t + Sub(rest, alias, by')
    decreases |t|
  {
    if t == "" {
      assert t + rest == rest;
    } else {
      assert (t + rest)[0] == t[0] && (t + rest)[1..] == t[1..] + rest;
      SubSkips(t[1..], rest, alias, by');
      assert [t[0]] + t[1..] == t;
    }
  }

  /** A name is replaced exactly if `alias` is its stem. */
  lemma SubName(n: Name, rest: string, alias: Name, by': Name)
    requires IsName(n) && Stops(rest) && IsWord(alias)
    ensures Sub(n + rest, alias, by') == Replaced(n, alias, by') + Sub(rest, alias, by')
  {
    hide Sub, Stem, Suffix, IsName, IsWord, Stops, Matches;
    var text := n + rest;
    WordIsName(alias);
    NameBegins(n);
    NameBegins(alias);
    if Stem(n) == alias {
      StemMatches(n, rest);
      SubHit(text, alias, by');
      assert text == alias + (Suffix(n) + rest) && text[|alias|..] == Suffix(n) + rest;
      SubSkips(Suffix(n), rest, alias, by');
      assert by' + (Suffix(n) + Sub(rest, alias, by')) == by' + Suffix(n) + Sub(rest, alias, by');
    } else {
      NoMatch(n, rest, alias);
      SubMiss(text, alias, by');
      assert text[1..] == n[1..] + rest && [n[0]] + n[1..] == n;
      SubSkips(n[1..], rest, alias, by');
      assert [n[0]] + (n[1..] + Sub(rest, alias, by')) == n + Sub(rest, alias, by');
    }
  }

  lemma NameBegins(n: Name)
    requires IsName(n)
    ensures n != "" && n[0] == '%' && '%' !in n[1..]
  {}

  lemma SubHit(text: string, alias: Name, by': Name)
    requires alias != "" && text != "" && Matches(text, alias)
    ensures Sub(text, alias, by') == by' + Sub(text[|alias|..], alias, by')
  {}

  lemma SubMiss(text: string, alias: Name, by': Name)
    requires alias != "" && text != "" && !Matches(text, alias)
    ensures Sub(text, alias, by') == [text[0]] + Sub(text[1..], alias, by')
  {}

  lemma StemMatches(n: Name, rest: string)
    requires IsName(n) && Stops(rest)
    ensures Matches(n + rest, Stem(n)) && '%' !in Suffix(n)
  {
    var text := n + rest;
    assert text[..|Stem(n)|] == Stem(n);
    SuffixStops(n);
    if |Stem(n)| < |n| {
      assert text[|Stem(n)|] == Suffix(n)[0];
    }
    assert forall i :: 0 <= i < |Suffix(n)| ==> Suffix(n)[i] == n[|Stem(n)| + i];
  }

  lemma NoMatch(n: Name, rest: string, alias: Name)
    requires IsName(n) && Stops(rest) && IsWord(alias) && Stem(n) != alias
    ensures !Matches(n + rest, alias)
  {
    hide Stem, IsWord, Matches;
    if Matches(n + rest, alias) {
      MatchIsStem(n, rest, alias);
    }
  }

  lemma MatchIsStem(n: Name, rest: string, alias: Name)
    requires IsName(n) && Stops(rest) && IsWord(alias) && Matches(n + rest, alias)
    ensures Stem(n) == alias
  {
    var text := n + rest;
    WordInside(alias);
    Joint(n, rest);
    assert |alias| <= |n|;
    var tail := n[|alias|..];
    assert n == alias + tail by { assert n[..|alias|] == text[..|alias|] == alias; }
    assert tail != "" ==> text[|alias|] == tail[0];
    StemOf(alias, tail);
  }

  lemma WordInside(w: Name)
    requires IsWord(w)
    ensures forall i :: 1 <= i < |w| ==> WordChar(w[i])
  {}

  /** Replacing a name in the text of a line replaces it in each name of the line. */
  lemma {:induction false} SubRender(ps: seq<Piece>, alias: Name, by': Name)
    requires Spelled(ps) && IsWord(alias)
    ensures Sub(Render(ps), alias, by') == Render(Mapped(ps, n => Replaced(n, alias, by')))
    decreases |ps|
  {
    hide Replaced, Stem, Suffix, Sub, IsWord, IsName;
    if ps == [] {
      NothingToReplace(alias, by');
    } else {
      var rest := Render(ps[1..]);
      SubRender(ps[1..], alias, by');
      WordIsName(alias);
      match ps[0] {
        case Other(t) => SubSkips(t, rest, alias, by');
        case Ref(n) => SubName(n, rest, alias, by');
      }
    }
  }

  lemma NothingToReplace(alias: Name, by': Name)
    requires IsWord(alias)
    ensures Sub("", alias, by') == ""
  {}

  lemma WordIsName(x: Name)
    requires IsWord(x)
    ensures IsName(x)
  {}

  // -------------------------------------------------------------------- exactly when it is right --

  lemma Joint(a: string, b: string)
    ensures forall k :: 0 <= k < |a| ==> (a + b)[k] == a[k]
    ensures b != "" ==> (a + b)[|a|] == b[0]
  {}

  /** Where one name ends and something else begins is determined by the text. */
  lemma NameUnique(n: Name, r: string, m: Name, s: string)
    requires IsName(n) && IsName(m) && Stops(r) && Stops(s) && n + r == m + s
    ensures n == m && r == s
  {
    Joint(n, r);
    Joint(m, s);
    assert |n| == |m|;
    assert n == (n + r)[..|n|] && m == (m + s)[..|m|];
    assert r == (n + r)[|n|..] && s == (m + s)[|m|..];
  }

  /** Two lines that differ in names only and have the same text have the same names. */
  lemma {:induction false} NamesUnique(ps: seq<Piece>, qs: seq<Piece>)
    requires Spelled(ps) && Spelled(qs) && |ps| == |qs| && Render(ps) == Render(qs)
    requires forall i :: 0 <= i < |ps| ==> if ps[i].Other? then qs[i] == ps[i] else qs[i].Ref?
    ensures ps == qs
    decreases |ps|
  {
    hide IsName, Stops;
    if ps != [] {
      var r, s := Render(ps[1..]), Render(qs[1..]);
      match ps[0] {
        case Other(t) => assert r == (t + r)[|t|..] && s == (t + s)[|t|..];
        case Ref(n) => NameUnique(n, r, qs[0].name, s);
      }
      NamesUnique(ps[1..], qs[1..]);
      assert ps == [ps[0]] + ps[1..] && qs == [qs[0]] + qs[1..];
    }
  }

  /** A map takes names to names. */
  ghost predicate Naming(f: Name -> Name) { forall n :: IsName(n) ==> IsName(f(n)) }

  lemma {:induction false} MappedSpelled(ps: seq<Piece>, f: Name -> Name)
    requires Spelled(ps) && Naming(f)
    ensures Spelled(Mapped(ps, f)) && (Stops(Render(ps)) ==> Stops(Render(Mapped(ps, f))))
    decreases |ps|
  {
    hide IsName, Naming, Stops;
    if ps != [] {
      var rest := ps[1..];
      MappedSpelled(rest, f);
      assert Mapped(ps, f)[1..] == Mapped(rest, f);
      FirstStops(ps, f);
    }
  }

  /** What a line begins with does not change, except from one name to another. */
  lemma FirstStops(ps: seq<Piece>, f: Name -> Name)
    requires ps != [] && Spelled(ps) && Naming(f) && (Stops(Render(ps[1..])) ==> Stops(Render(Mapped(ps[1..], f))))
    ensures Stops(Render(ps)) ==> Stops(Render(Mapped(ps, f)))
    ensures ps[0].Ref? ==> IsName(f(ps[0].name))
  {
    hide IsName;
    assert Mapped(ps, f)[1..] == Mapped(ps[1..], f);
    match ps[0] {
      case Other(t) =>
        var r, q := Render(ps[1..]), Render(Mapped(ps[1..], f));
        assert t == "" ==> t + r == r && t + q == q;
        assert t != "" ==> (t + r)[0] == t[0] && (t + q)[0] == t[0];
      case Ref(n) => NameBegins(n);
    }
  }

  lemma ReplacedIsName(alias: Name, by': Name)
    requires IsWord(alias) && IsWord(by')
    ensures Naming(n => Replaced(n, alias, by')) && Naming(n => Renamed(n, alias, by'))
  {
    forall n | IsName(n) ensures IsName(Replaced(n, alias, by')) {
      assert forall i :: 0 <= i < |Suffix(n)| ==> Suffix(n)[i] == n[|Stem(n)| + i];
    }
  }

  /** The whole name is replaced, or nothing. */
  function Renamed(x: Name, alias: Name, by': Name): Name { if x == alias then by' else x }

  /** Only the names of the line that are the alias itself have it as their stem. */
  predicate NoneDotted(ps: seq<Piece>, alias: Name) {
    forall i :: 0 <= i < |ps| && ps[i].Ref? ==> Stem(ps[i].name) == alias ==> ps[i].name == alias
  }

  lemma ReplacedIsRenamed(x: Name, alias: Name, by': Name)
    requires IsWord(alias) && by' != alias
    ensures Replaced(x, alias, by') == Renamed(x, alias, by') <==> (Stem(x) == alias ==> x == alias)
  {
    SameEnd(by', Stem(x), Suffix(x));
    if x == alias {
      assert Suffix(x) == "";
    }
  }

  lemma SameEnd(a: string, b: string, c: string)
    ensures a + c == b + c ==> a == b
  {
    if a + c == b + c {
      assert a == (a + c)[..|a|] && b == (b + c)[..|b|];
    }
  }

  /** The replacement in the text renames exactly the alias if and only if no other name of the line is the
      alias followed by something that is no word character, as in `%x.arg`. */
  lemma TextExact(ps: seq<Piece>, alias: Name, by': Name)
    requires Spelled(ps) && IsWord(alias) && IsWord(by') && by' != alias
    ensures Sub(Render(ps), alias, by') == Render(Mapped(ps, n => Renamed(n, alias, by'))) <==> NoneDotted(ps, alias)
  {
    var replaced, renamed := Mapped(ps, n => Replaced(n, alias, by')), Mapped(ps, n => Renamed(n, alias, by'));
    ReplacedIsName(alias, by');
    MappedSpelled(ps, n => Replaced(n, alias, by'));
    MappedSpelled(ps, n => Renamed(n, alias, by'));
    SubRender(ps, alias, by');
    hide Replaced, Renamed, Stem, Spelled, Render, Sub;
    forall i | 0 <= i < |ps| && ps[i].Ref?
      ensures replaced[i] == renamed[i] <==> (Stem(ps[i].name) == alias ==> ps[i].name == alias) {
      ReplacedIsRenamed(ps[i].name, alias, by');
    }
    if Render(replaced) == Render(renamed) {
      NamesUnique(replaced, renamed);
    }
    if NoneDotted(ps, alias) {
      assert replaced == renamed;
    }
  }

  /** A line on which the replacement hits another name: the argument `%x.arg` becomes `%src.arg`. */
  lemma DottedNameIsHit()
    ensures Sub("ret i32 " + "%x.arg", "%x", "%src") == "ret i32 " + "%src.arg"
  {
    hide Sub;
    Words();
    SubSkips("ret i32 ", "%x.arg", "%x", "%src");
    assert "%x.arg" + "" == "%x.arg" && "%src" + ".arg" == "%src.arg";
    SubName("%x.arg", "", "%x", "%src");
    NothingToReplace("%x", "%src");
    assert "%src.arg" + "" == "%src.arg";
  }

  lemma Words()
    ensures IsWord("%x") && IsName("%x.arg") && Stem("%x.arg") == "%x" && Suffix("%x.arg") == ".arg"
  {
    WordEndIs("%x", 1, 2);
    WordEndIs("%x.arg", 1, 2);
  }
}
