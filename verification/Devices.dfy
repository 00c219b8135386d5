/** The device list of the audio server, parsed in one pass, and the choice of a microphone. */
module Devices {
  import opened Options

  const NAME_LEN := 192
  const LABEL_LEN := 128

  datatype Mic = Mic(name: string, shown: string)

  // ---------------------------------------------------------------------- the text --

  /** A line without its leading blanks and trailing carriage returns. */
  datatype Line = Line(indented: bool, body: string)

  predicate Blank(c: char) { c == ' ' || c == '\t' }

  function StripBlanks(s: string): (r: string)
    ensures r == "" || !Blank(r[0])
  {
    if s != "" && Blank(s[0]) then StripBlanks(s[1..]) else s
  }

  function StripReturns(s: string): (r: string)
    ensures r <= s
  {
    if s != "" && s[|s| - 1] == '\r' then StripReturns(s[..|s| - 1]) else s
  }

  function LineOf(raw: string): Line { Line(raw != "" && Blank(raw[0]), StripReturns(StripBlanks(raw))) }

  function LineEnd(text: string): (n: nat)
    ensures n <= |text| && '\n' !in text[..n] && (n < |text| ==> text[n] == '\n')
  {
    if text == "" || text[0] == '\n' then 0 else
      assert text[..1 + LineEnd(text[1..])] == [text[0]] + text[1..][..LineEnd(text[1..])];
      1 + LineEnd(text[1..])
  }

  /** The lines of a text. A newline at its very end begins no further line. */
  function Lines(text: string): seq<Line>
    decreases |text|
  {
    if text == "" then [] else
      var n := LineEnd(text);
      [LineOf(text[..n])] + Lines(if n < |text| then text[n + 1..] else "")
  }

  /** The value of a line that reads `key value`. */
  function Field(body: string, key: string): Option<string> {
    if |key| <= |body| && body[..|key|] == key then Some(StripBlanks(body[|key|..])) else None
  }

  function Truncated(s: string, cap: nat): string
    requires cap > 0
  {
    if |s| >= cap then s[..cap - 1] else s
  }

  predicate EndsWith(s: string, suffix: string) { |suffix| <= |s| && s[|s| - |suffix|..] == suffix }

  // ------------------------------------------------------------ block-wise meaning --

  predicate Header(l: Line) { !l.indented && |l.body| >= 8 && l.body[..8] == "Source #" }

  /** How many lines come before the first header. */
  function Body(lines: seq<Line>): (n: nat)
    ensures n <= |lines|
  {
    if lines == [] || Header(lines[0]) then 0 else 1 + Body(lines[1..])
  }

  /** The source blocks: what follows each header up to the next one. */
  function Blocks(lines: seq<Line>): seq<seq<Line>>
    decreases |lines|
  {
    if lines == [] then []
    else if !Header(lines[0]) then Blocks(lines[1..])
    else
      var n := Body(lines[1..]);
      [lines[1..][..n]] + Blocks(lines[1..][n..])
  }

  /** The value of the last indented line of a block that states `key`. */
  function LastField(block: seq<Line>, key: string): Option<string> {
    if block == [] then None else
      var l := block[|block| - 1];
      if l.indented && Field(l.body, key).Some? then Field(l.body, key)
      else LastField(block[..|block| - 1], key)
  }

  function OrEmpty(o: Option<string>): string { if o.Some? then o.value else "" }

  /** What a block says about its source. */
  datatype Facts = Facts(name: string, shown: string, sink: Option<string>)

  function FactsOf(block: seq<Line>): Facts {
    Facts(OrEmpty(LastField(block, "Name:")), OrEmpty(LastField(block, "Description:")),
          LastField(block, "Monitor of Sink:"))
  }

  predicate IsMonitor(f: Facts) {
    if f.sink.Some? then f.sink.value != "n/a" else EndsWith(f.name, ".monitor")
  }

  /** A voice can come from it, and its name fits. */
  predicate Candidate(f: Facts) { f.name != "" && |f.name| < NAME_LEN && !IsMonitor(f) }

  function MicOf(f: Facts): Mic {
    Mic(f.name, if f.shown != "" then Truncated(f.shown, LABEL_LEN) else Truncated(f.name, LABEL_LEN))
  }

  /** The candidates among the blocks, in order. */
  function Candidates(blocks: seq<seq<Line>>): seq<Mic> {
    if blocks == [] then [] else
      var f := FactsOf(blocks[0]);
      (if Candidate(f) then [MicOf(f)] else []) + Candidates(blocks[1..])
  }

  function Take(mics: seq<Mic>, max: int): seq<Mic> {
    if max <= 0 then [] else if |mics| <= max then mics else mics[..max]
  }

  /** The first `max` microphone candidates of a device list. */
  function Sources(text: string, max: int): seq<Mic> { Take(Candidates(Blocks(Lines(text))), max) }

  // ------------------------------------------------------------------- the one pass --

  /** The end of the line that begins at `cursor`. */
  method FindEnd(text: string, cursor: nat) returns (eol: nat)
    requires cursor <= |text|
    ensures cursor <= eol <= |text| && eol - cursor == LineEnd(text[cursor..])
  {
    eol := cursor;
    while eol < |text| && text[eol] != '\n'
      invariant cursor <= eol <= |text| && '\n' !in text[cursor..eol]
    {
      assert text[cursor..eol + 1] == text[cursor..eol] + [text[eol]];
      eol := eol + 1;
    }
    assert text[cursor..][..eol - cursor] == text[cursor..eol];
    EndFound(text[cursor..], eol - cursor);
  }

  lemma BlankSkipped(text: string, start: nat, eol: nat)
    requires start < eol <= |text|
    ensures StripBlanks(text[start..eol]) == if Blank(text[start]) then StripBlanks(text[start + 1..eol])
            else text[start..eol]
  {
    assert text[start..eol][1..] == text[start + 1..eol];
  }

  lemma ReturnSkipped(text: string, start: nat, end: nat)
    requires start < end <= |text|
    ensures StripReturns(text[start..end]) == if text[end - 1] == '\r' then StripReturns(text[start..end - 1])
            else text[start..end]
  {
    assert text[start..end][..end - start - 1] == text[start..end - 1];
  }

  /** The line from `cursor` to `eol` without its leading blanks and trailing returns. */
  method Trim(text: string, cursor: nat, eol: nat) returns (line: Line)
    requires cursor <= eol <= |text|
    ensures line == LineOf(text[cursor..eol])
  {
    hide StripBlanks, StripReturns;
    var start := cursor;
    while start < eol && Blank(text[start])
      invariant cursor <= start <= eol && StripBlanks(text[start..eol]) == StripBlanks(text[cursor..eol])
    {
      BlankSkipped(text, start, eol);
      start := start + 1;
    }
    if start < eol { BlankSkipped(text, start, eol); } else { NothingLeft(text, eol); }
    var end := eol;
    while end > start && text[end - 1] == '\r'
      invariant start <= end <= eol && StripReturns(text[start..end]) == StripReturns(text[start..eol])
    {
      ReturnSkipped(text, start, end);
      end := end - 1;
    }
    if start < end { ReturnSkipped(text, start, end); } else { NothingLeft(text, start); }
    line := Line(cursor < eol && Blank(text[cursor]), text[start..end]);
  }

  lemma NothingLeft(text: string, at: nat)
    requires at <= |text|
    ensures text[at..at] == "" && StripBlanks("") == "" && StripReturns("") == ""
  {}

  /** The line at `cursor`, and where the next one begins. */
  method NextLine(text: string, cursor: nat) returns (more: bool, line: Line, next: nat)
    requires cursor <= |text|
    ensures more <==> Lines(text[cursor..]) != []
    ensures more ==> cursor < next <= |text| && Lines(text[cursor..]) == [line] + Lines(text[next..])
    ensures !more ==> next == cursor
  {
    hide LineOf, LineEnd;
    more, next, line := cursor < |text|, cursor, Line(false, "");
    if more {
      var eol := FindEnd(text, cursor);
      line := Trim(text, cursor, eol);
      var rest, n := text[cursor..], eol - cursor;
      assert rest[..n] == text[cursor..eol];
      if eol < |text| {
        next := eol + 1;
        assert rest[n + 1..] == text[next..];
      } else {
        next := eol;
        assert text[next..] == "";
      }
    }
  }

  lemma {:induction false} EndFound(text: string, n: nat)
    requires n <= |text| && '\n' !in text[..n] && (n < |text| ==> text[n] == '\n')
    ensures LineEnd(text) == n
  {
    if n > 0 {
      assert text[0] == text[..n][0] != '\n';
      assert text[1..][..n - 1] == text[..n][1..];
      EndFound(text[1..], n - 1);
    }
  }

  /** The block whose first lines are `seen` and that goes on with `rest`, and the blocks behind it. */
  function OpenBlocks(seen: seq<Line>, rest: seq<Line>): seq<seq<Line>> {
    var n := Body(rest);
    [seen + rest[..n]] + Blocks(rest[n..])
  }

  lemma OpenNext(seen: seq<Line>, rest: seq<Line>)
    requires rest != []
    ensures Header(rest[0]) ==> OpenBlocks(seen, rest) == [seen] + OpenBlocks([], rest[1..])
    ensures !Header(rest[0]) ==> OpenBlocks(seen, rest) == OpenBlocks(seen + [rest[0]], rest[1..])
  {
    var n := Body(rest);
    if Header(rest[0]) {
      assert rest[0..] == rest && seen + rest[..0] == seen;
      var m := Body(rest[1..]);
      assert [] + rest[1..][..m] == rest[1..][..m];
    } else {
      assert rest[..n] == [rest[0]] + rest[1..][..n - 1];
      assert rest[n..] == rest[1..][n - 1..];
      assert seen + rest[..n] == seen + [rest[0]] + rest[1..][..n - 1];
    }
  }

  lemma OpenEnd(seen: seq<Line>)
    ensures OpenBlocks(seen, []) == [seen]
  {
    assert seen + [][..0] == seen;
  }

  lemma CandidatesFirst(a: seq<seq<Line>>)
    requires a != []
    ensures Candidates(a) == Candidates([a[0]]) + Candidates(a[1..])
  {
    hide FactsOf, Candidate, MicOf;
    assert [a[0]][1..] == [];
  }

  lemma {:induction false} CandidatesAdd(a: seq<seq<Line>>, b: seq<seq<Line>>)
    ensures Candidates(a + b) == Candidates(a) + Candidates(b)
  {
    hide FactsOf, Candidate, MicOf;
    if a == [] {
      assert a + b == b;
    } else {
      var first := Candidates([a[0]]);
      CandidatesAdd(a[1..], b);
      CandidatesFirst(a);
      CandidatesFirst(a + b);
      assert (a + b)[1..] == a[1..] + b;
      assert first + (Candidates(a[1..]) + Candidates(b)) == first + Candidates(a[1..]) + Candidates(b);
    }
  }

  /** The facts of a block change with a line only if the line states one of them. */
  lemma NextFact(seen: seq<Line>, l: Line, key: string)
    ensures LastField(seen + [l], key) ==
            if l.indented && Field(l.body, key).Some? then Field(l.body, key) else LastField(seen, key)
  {
    assert (seen + [l])[..|seen|] == seen;
  }

  /** What the variables of the pass stand for while a block is open. */
  ghost predicate Gathered(seen: seq<Line>, name: string, tooLong: bool, shown: string, monitor: int) {
    var f := FactsOf(seen);
    && name == Truncated(f.name, NAME_LEN) && (tooLong <==> |f.name| >= NAME_LEN)
    && shown == Truncated(f.shown, LABEL_LEN)
    && monitor == if f.sink.None? then -1 else if f.sink.value == "n/a" then 0 else 1
  }

  method Gather(ghost seen: seq<Line>, l: Line, name0: string, tooLong0: bool, shown0: string, monitor0: int)
    returns (name: string, tooLong: bool, shown: string, monitor: int)
    requires Gathered(seen, name0, tooLong0, shown0, monitor0)
    ensures Gathered(seen + [l], name, tooLong, shown, monitor)
  {
    name, tooLong, shown, monitor := name0, tooLong0, shown0, monitor0;
    NextFact(seen, l, "Name:");
    NextFact(seen, l, "Description:");
    NextFact(seen, l, "Monitor of Sink:");
    KeysApart(l.body);
    if l.indented {
      var n, d, s := Field(l.body, "Name:"), Field(l.body, "Description:"), Field(l.body, "Monitor of Sink:");
      if n.Some? {
        tooLong := |n.value| >= NAME_LEN;
        name := Truncated(n.value, NAME_LEN);
      } else if d.Some? {
        shown := Truncated(d.value, LABEL_LEN);
      } else if s.Some? {
        monitor := if s.value == "n/a" then 0 else 1;
      }
    }
  }

  /** No line states two of the facts. */
  lemma KeysApart(body: string)
    ensures Field(body, "Name:").Some? ==> Field(body, "Description:").None? && Field(body, "Monitor of Sink:").None?
    ensures Field(body, "Description:").Some? ==> Field(body, "Monitor of Sink:").None?
  {
    assert "Name:"[0] == 'N' && "Description:"[0] == 'D' && "Monitor of Sink:"[0] == 'M';
    if body != "" {
      assert Field(body, "Name:").Some? ==> body[..5][0] == 'N';
      assert Field(body, "Description:").Some? ==> body[..12][0] == 'D';
      assert Field(body, "Monitor of Sink:").Some? ==> body[..16][0] == 'M';
    }
  }

  /** What has been stored so far, and what may still be. */
  ghost predicate Stored(out: seq<Mic>, was: seq<Mic>, n: nat, max: int, done: seq<seq<Line>>) {
    && |out| == |was| && n <= |out| && out[..n] == Take(Candidates(done), max) && out[n..] == was[n..]
  }

  /** The variables decide about a block as its facts do. */
  lemma GatheredDecides(seen: seq<Line>, name: string, tooLong: bool, shown: string, monitor: int)
    requires Gathered(seen, name, tooLong, shown, monitor)
    ensures var isMonitor := monitor == 1 || (monitor == -1 && EndsWith(name, ".monitor"));
            Candidates([seen]) ==
            if name != "" && !tooLong && !isMonitor
            then [Mic(name, Truncated(if shown != "" then shown else name, LABEL_LEN))] else []
  {
    hide FactsOf, EndsWith;
    assert [seen][1..] == [];
  }

  lemma TakeMore(mics: seq<Mic>, more: seq<Mic>, max: int)
    requires |more| <= 1
    ensures Take(mics + more, max) == if more != [] && |Take(mics, max)| < max then Take(mics, max) + more
            else Take(mics, max)
  {}

  /** What is stored when one more block has ended. */
  lemma StoredMore(before: seq<Mic>, was: seq<Mic>, n0: nat, max: int, done: seq<seq<Line>>, seen: seq<Line>,
                   out: seq<Mic>, n: nat)
    requires max <= |before| && Stored(before, was, n0, max, done)
    requires var more := Candidates([seen]);
             && |more| <= 1
             && if more != [] && n0 < max then n == n0 + 1 && out == before[n0 := more[0]] else n == n0 && out == before
    ensures Stored(out, was, n, max, done + [seen])
  {
    hide Candidates, Take;
    var more := Candidates([seen]);
    CandidatesAdd(done, [seen]);
    TakeMore(Candidates(done), more, max);
    TakeLength(Candidates(done), max);
    if more != [] && n0 < max {
      assert out[..n] == before[..n0] + more;
      assert out[n..] == before[n0..][1..] == was[n0..][1..];
    }
  }

  lemma TakeLength(mics: seq<Mic>, max: int)
    ensures |Take(mics, max)| <= if max <= 0 then 0 else max
  {}

  /** The end of a block: it is stored if it is a candidate and there is room. */
  method Flush(out: array<Mic>, n0: nat, max: int, ghost done: seq<seq<Line>>, ghost seen: seq<Line>,
               ghost was: seq<Mic>, name: string, tooLong: bool, shown: string, monitor: int) returns (n: nat)
    requires max <= out.Length && Stored(out[..], was, n0, max, done) && Gathered(seen, name, tooLong, shown, monitor)
    modifies out
    ensures Stored(out[..], was, n, max, done + [seen])
  {
    hide Gathered, Candidates, EndsWith, Truncated, Stored;
    n := n0;
    ghost var before := out[..];
    GatheredDecides(seen, name, tooLong, shown, monitor);
    var isMonitor := monitor == 1 || (monitor == -1 && EndsWith(name, ".monitor"));
    if name != "" && !tooLong && !isMonitor && n < max {
      out[n] := Mic(name, Truncated(if shown != "" then shown else name, LABEL_LEN));
      n := n + 1;
      assert out[..] == before[n0 := out[n0]];
    }
    StoredMore(before, was, n0, max, done, seen, out[..], n);
  }

  /** The lines `rest` still to be read, and the blocks that come of them. */
  function Remaining(inSource: bool, seen: seq<Line>, rest: seq<Line>): seq<seq<Line>> {
    if inSource then OpenBlocks(seen, rest) else Blocks(rest)
  }

  /** The blocks that are finished once the open one, if any, is. */
  function Closed(done: seq<seq<Line>>, inSource: bool, seen: seq<Line>): seq<seq<Line>> {
    if inSource then done + [seen] else done
  }

  /** The blocks of the list are those finished and those still to come. */
  ghost predicate Ahead(whole: seq<seq<Line>>, done: seq<seq<Line>>, inSource: bool, seen: seq<Line>, rest: seq<Line>) {
    whole == done + Remaining(inSource, seen, rest)
  }

  lemma AheadNext(whole: seq<seq<Line>>, done: seq<seq<Line>>, inSource: bool, seen: seq<Line>, line: Line,
                  rest: seq<Line>)
    requires Ahead(whole, done, inSource, seen, [line] + rest)
    ensures Header(line) ==> Ahead(whole, Closed(done, inSource, seen), true, [], rest)
    ensures !Header(line) ==> Ahead(whole, done, inSource, seen + [line], rest)
  {
    hide Header, Blocks, OpenBlocks;
    OpenNext(seen, [line] + rest);
    assert ([line] + rest)[1..] == rest;
    if Header(line) {
      BlocksHeader(line, rest);
      assert done + ([seen] + OpenBlocks([], rest)) == done + [seen] + OpenBlocks([], rest);
    } else {
      BlocksOther(line, rest);
    }
  }

  lemma BlocksHeader(line: Line, rest: seq<Line>)
    requires Header(line)
    ensures Blocks([line] + rest) == OpenBlocks([], rest)
  {
    assert ([line] + rest)[1..] == rest;
    assert [] + rest[..Body(rest)] == rest[..Body(rest)];
  }

  lemma BlocksOther(line: Line, rest: seq<Line>)
    requires !Header(line)
    ensures Blocks([line] + rest) == Blocks(rest)
  {
    assert ([line] + rest)[1..] == rest;
  }

  lemma AheadEnd(whole: seq<seq<Line>>, done: seq<seq<Line>>, inSource: bool, seen: seq<Line>)
    requires Ahead(whole, done, inSource, seen, [])
    ensures whole == Closed(done, inSource, seen)
  {
    OpenEnd(seen);
  }

  /** One pass over the device list stores the first `max` microphone candidates of its blocks, in
      order, and leaves the rest of the array alone. */
  method ParseSources(text: string, out: array<Mic>, max: int) returns (n: nat)
    requires max <= out.Length
    modifies out
    ensures n <= out.Length && out[..n] == Sources(text, max) && out[n..] == old(out[n..])
  {
    n := 0;
    var inSource, name, tooLong, shown, monitor := false, "", false, "", -1;
    var cursor, more := 0, true;
    ghost var was, done: seq<seq<Line>>, seen: seq<Line> := out[..], [], [];
    ghost var whole := Blocks(Lines(text));
    assert text[0..] == text;
    NothingYet(was, max, Lines(text));
    hide *;
    while more
      invariant cursor <= |text| && Stored(out[..], was, n, max, done)
      invariant more && inSource ==> Gathered(seen, name, tooLong, shown, monitor)
      invariant if more then Ahead(whole, done, inSource, seen, Lines(text[cursor..])) else whole == done
      decreases |text| - cursor, more
    {
      var line;
      more, line, cursor := NextLine(text, cursor);
      var header := more && Header(line);
      if (header || !more) && inSource {
        n := Flush(out, n, max, done, seen, was, name, tooLong, shown, monitor);
      }
      if !more {
        AheadEnd(whole, done, inSource, seen);
        done := whole;
      } else {
        AheadNext(whole, done, inSource, seen, line, Lines(text[cursor..]));
        if header {
          done, seen := Closed(done, inSource, seen), [];
          inSource, monitor, tooLong, name, shown := true, -1, false, "", "";
        } else {
          if inSource {
            name, tooLong, shown, monitor := Gather(seen, line, name, tooLong, shown, monitor);
          }
          seen := seen + [line];
        }
      }
    }
    StoredAll(out[..], was, n, max, text);
  }

  lemma NothingYet(was: seq<Mic>, max: int, lines: seq<Line>)
    ensures Stored(was, was, 0, max, []) && Gathered([], "", false, "", -1)
    ensures Ahead(Blocks(lines), [], false, [], lines)
  {}

  lemma StoredAll(out: seq<Mic>, was: seq<Mic>, n: nat, max: int, text: string)
    requires Stored(out, was, n, max, Blocks(Lines(text)))
    ensures n <= |out| && out[..n] == Sources(text, max) && out[n..] == was[n..]
  {}

  // --------------------------------------------------------------- rendered lists --

  /** A source as the audio server lists it. Other lines may stand above its name, its description and its
      sink, and below them all. */
  datatype Source = Source(id: string, aboveName: seq<string>, name: string, aboveShown: seq<string>, shown: string,
                           aboveSink: seq<string>, sink: Option<string>, below: seq<string>)

  function RenderNotes(notes: seq<string>): string {
    if notes == [] then "" else notes[0] + "\n" + RenderNotes(notes[1..])
  }

  function RenderKey(key: string, value: string): string { "\t" + key + " " + value + "\n" }

  function RenderSink(s: Source): string { if s.sink.Some? then RenderKey("Monitor of Sink:", s.sink.value) else "" }

  function RenderSource(s: Source): string {
    "Source #" + s.id + "\n" + (RenderNotes(s.aboveName) + (RenderKey("Name:", s.name) + (RenderNotes(s.aboveShown)
    + (RenderKey("Description:", s.shown) + (RenderNotes(s.aboveSink) + (RenderSink(s) + RenderNotes(s.below)))))))
  }

  function RenderAll(sources: seq<Source>): string {
    if sources == [] then "" else RenderSource(sources[0]) + RenderAll(sources[1..])
  }

  /** A whole list, with lines before the first source. */
  function Render(preamble: seq<string>, sources: seq<Source>): string { RenderNotes(preamble) + RenderAll(sources) }

  /** A value that survives on a line of its own. */
  predicate Clean(x: string) { '\n' !in x && (x == "" || (!Blank(x[0]) && x[|x| - 1] != '\r')) }

  predicate BeginsWith(x: string, start: string) { |start| <= |x| && x[..|start|] == start }

  /** A line, blank and unindented ones included, that begins no source and states none of the facts: an unindented
      one does not begin like a source, an indented one not like a fact behind any of its blanks. */
  ghost predicate Silent(raw: string) {
    && '\n' !in raw
    && if raw == "" || (raw[0] != ' ' && raw[0] != '\t') then !BeginsWith(raw, "Source #") else
         forall n :: 0 <= n <= |raw| && (forall k :: 0 <= k < n ==> raw[k] == ' ' || raw[k] == '\t') ==>
           && !BeginsWith(raw[n..], "Name:") && !BeginsWith(raw[n..], "Description:")
           && !BeginsWith(raw[n..], "Monitor of Sink:")
  }

  lemma {:induction false} StrippedAt(raw: string) returns (n: nat)
    ensures n <= |raw| && StripBlanks(raw) == raw[n..]
    ensures forall k :: 0 <= k < n ==> raw[k] == ' ' || raw[k] == '\t'
    ensures n == 0 <==> raw == "" || (raw[0] != ' ' && raw[0] != '\t')
  {
    n := 0;
    if raw != "" && Blank(raw[0]) {
      n := StrippedAt(raw[1..]);
      assert raw[1..][n..] == raw[n + 1..];
      assert forall k :: 0 < k < n + 1 ==> raw[k] == raw[1..][k - 1];
      n := n + 1;
    }
  }

  /** The pass reads nothing into such a line. */
  lemma SilentLine(raw: string)
    requires Silent(raw)
    ensures !Header(LineOf(raw))
    ensures LineOf(raw).indented ==>
              forall key :: key in {"Name:", "Description:", "Monitor of Sink:"} ==> Field(LineOf(raw).body, key).None?
  {
    var l := LineOf(raw);
    var n := StrippedAt(raw);
    assert l.body <= raw[n..];
    BeginsLonger(l.body, raw[n..], "Source #");
    BeginsLonger(l.body, raw[n..], "Name:");
    BeginsLonger(l.body, raw[n..], "Description:");
    BeginsLonger(l.body, raw[n..], "Monitor of Sink:");
  }

  lemma BeginsLonger(x: string, y: string, start: string)
    requires x <= y
    ensures BeginsWith(x, start) ==> BeginsWith(y, start)
  {
    assert |start| <= |x| ==> y[..|start|] == x[..|start|];
  }

  ghost predicate AllSilent(notes: seq<string>) { forall i :: 0 <= i < |notes| ==> Silent(notes[i]) }

  predicate IsKey(key: string) { key in {"Name:", "Description:", "Monitor of Sink:"} }

  ghost predicate WellFormed(s: Source) {
    && Clean("#" + s.id) && Clean(s.name) && Clean(s.shown) && (s.sink.Some? ==> Clean(s.sink.value))
    && AllSilent(s.aboveName) && AllSilent(s.aboveShown) && AllSilent(s.aboveSink) && AllSilent(s.below)
  }

  function Stated(s: Source): Facts { Facts(s.name, s.shown, s.sink) }

  /** A source that listens to a sink; "n/a" is none. Where nothing is said of a sink its name tells. */
  predicate Monitors(s: Source) {
    match s.sink
    case Some(sink) => sink != "n/a"
    case None => |s.name| >= 8 && s.name[|s.name| - 8..] == ".monitor"
  }

  /** A microphone has a name, of less than 192 characters, and listens to no sink. */
  predicate CanRecord(s: Source) { 0 < |s.name| < 192 && !Monitors(s) }

  /** The name of the microphone and what is shown of it: its description, or else its name, up to 127 characters. */
  function AsMic(s: Source): Mic {
    var full := if s.shown == "" then s.name else s.shown;
    Mic(s.name, if |full| > 127 then full[..127] else full)
  }

  /** The sources that can record a voice, in order. */
  function NonMonitors(sources: seq<Source>): seq<Mic> {
    if sources == [] then []
      else (if CanRecord(sources[0]) then [AsMic(sources[0])] else []) + NonMonitors(sources[1..])
  }

  lemma StatedDecides(s: Source)
    ensures Candidate(Stated(s)) <==> CanRecord(s)
    ensures CanRecord(s) ==> MicOf(Stated(s)) == AsMic(s)
  {}

  lemma LinesFirst(raw: string, rest: string)
    requires '\n' !in raw
    ensures Lines(raw + "\n" + rest) == [LineOf(raw)] + Lines(rest)
  {
    var text := raw + "\n" + rest;
    EndFound(text, |raw|) by { assert text[..|raw|] == raw && text[|raw|] == '\n'; }
    assert text[..|raw|] == raw && text[|raw| + 1..] == rest;
  }

  function KeyLine(key: string, value: string): Line { Line(true, key + " " + value) }

  lemma TabLine(body: string)
    requires body != "" && !Blank(body[0]) && body[|body| - 1] != '\r'
    ensures LineOf("\t" + body) == Line(true, body)
  {
    assert ("\t" + body)[1..] == body;
    assert StripBlanks("\t" + body) == StripBlanks(body) == body;
  }

  lemma FieldRead(key: string, value: string)
    requires Clean(value)
    ensures Field(key + (" " + value), key) == Some(value)
  {
    var body := key + (" " + value);
    assert body[..|key|] == key && body[|key|..] == " " + value;
    assert (" " + value)[1..] == value;
    assert StripBlanks(" " + value) == StripBlanks(value) == value;
  }

  lemma KeyLineRead(key: string, value: string)
    requires key != "" && !Blank(key[0]) && Clean(value)
    ensures LineOf("\t" + key + " " + value) == KeyLine(key, value)
    ensures Field(key + " " + value, key) == Some(value)
  {
    hide LineOf, Field;
    var body := key + (" " + value);
    assert key + " " + value == body;
    assert "\t" + key + " " + value == "\t" + body;
    TabLine(body);
    FieldRead(key, value);
  }

  lemma LinesKey(key: string, value: string, rest: string)
    requires key != "" && !Blank(key[0]) && '\n' !in key && Clean(value)
    ensures Lines(RenderKey(key, value) + rest) == [KeyLine(key, value)] + Lines(rest)
  {
    hide LineOf, Lines;
    KeyLineRead(key, value);
    LinesFirst("\t" + key + " " + value, rest);
    assert RenderKey(key, value) + rest == "\t" + key + " " + value + "\n" + rest;
  }

  function NoteLines(notes: seq<string>): seq<Line> {
    if notes == [] then [] else [LineOf(notes[0])] + NoteLines(notes[1..])
  }

  lemma {:induction false} LinesNotes(notes: seq<string>, rest: string)
    requires AllSilent(notes)
    ensures Lines(RenderNotes(notes) + rest) == NoteLines(notes) + Lines(rest)
  {
    hide LineOf, Lines, Field, Header, IsKey;
    if notes == [] {
      assert RenderNotes(notes) + rest == rest;
    } else {
      SilentLine(notes[0]);
      var more := RenderNotes(notes[1..]) + rest;
      LinesFirst(notes[0], more);
      assert RenderNotes(notes) + rest == notes[0] + "\n" + more;
      LinesNotes(notes[1..], rest);
    }
  }

  function SinkLines(s: Source): seq<Line> { if s.sink.Some? then [KeyLine("Monitor of Sink:", s.sink.value)] else [] }

  lemma LinesSink(s: Source, rest: string)
    requires s.sink.Some? ==> Clean(s.sink.value)
    ensures Lines(RenderSink(s) + rest) == SinkLines(s) + Lines(rest)
  {
    hide Lines, Clean, RenderKey, KeyLine;
    if s.sink.Some? {
      LinesKey("Monitor of Sink:", s.sink.value, rest);
    } else {
      assert RenderSink(s) + rest == rest;
    }
  }

  function BlockOf(s: Source): seq<Line> {
    NoteLines(s.aboveName) + ([KeyLine("Name:", s.name)] + (NoteLines(s.aboveShown)
    + ([KeyLine("Description:", s.shown)] + (NoteLines(s.aboveSink) + (SinkLines(s) + NoteLines(s.below))))))
  }

  function HeaderOf(s: Source): Line { LineOf("Source #" + s.id) }

  lemma HeaderRead(s: Source)
    requires WellFormed(s)
    ensures Header(HeaderOf(s))
  {
    var raw := "Source #" + s.id;
    assert raw[|raw| - 1] == ("#" + s.id)[|s.id|];
    assert raw[..8] == "Source #";
  }

  lemma LinesSource(s: Source, rest: string)
    requires WellFormed(s)
    ensures Lines(RenderSource(s) + rest) == [HeaderOf(s)] + BlockOf(s) + Lines(rest)
  {
    hide LineOf, Lines, RenderKey, RenderNotes, NoteLines, Silent, AllSilent, KeyLine, RenderSink, SinkLines, Clean;
    var t7 := RenderNotes(s.below) + rest;
    var t6 := RenderSink(s) + t7;
    var t5 := RenderNotes(s.aboveSink) + t6;
    var t4 := RenderKey("Description:", s.shown) + t5;
    var t3 := RenderNotes(s.aboveShown) + t4;
    var t2 := RenderKey("Name:", s.name) + t3;
    var t1 := RenderNotes(s.aboveName) + t2;
    LinesNotes(s.below, rest);
    LinesSink(s, t7);
    LinesNotes(s.aboveSink, t6);
    LinesKey("Description:", s.shown, t5);
    LinesNotes(s.aboveShown, t4);
    LinesKey("Name:", s.name, t3);
    LinesNotes(s.aboveName, t2);
    HeaderLine(s, t1);
    RenderParts(s, rest);
    BlockParts(s, Lines(rest));
  }

  lemma HeaderLine(s: Source, rest: string)
    requires Clean("#" + s.id)
    ensures Lines("Source #" + s.id + "\n" + rest) == [HeaderOf(s)] + Lines(rest)
  {
    hide Lines, LineOf;
    assert '\n' !in s.id by { assert s.id == ("#" + s.id)[1..]; }
    LinesFirst("Source #" + s.id, rest);
  }

  lemma RenderParts(s: Source, rest: string)
    ensures RenderSource(s) + rest ==
            "Source #" + s.id + "\n"
            + (RenderNotes(s.aboveName) + (RenderKey("Name:", s.name) + (RenderNotes(s.aboveShown)
            + (RenderKey("Description:", s.shown)
            + (RenderNotes(s.aboveSink) + (RenderSink(s) + (RenderNotes(s.below) + rest)))))))
  {
    hide RenderKey, RenderNotes, RenderSink;
  }

  lemma BlockParts(s: Source, rest: seq<Line>)
    ensures BlockOf(s) + rest ==
            NoteLines(s.aboveName) + ([KeyLine("Name:", s.name)] + (NoteLines(s.aboveShown)
            + ([KeyLine("Description:", s.shown)]
            + (NoteLines(s.aboveSink) + (SinkLines(s) + (NoteLines(s.below) + rest))))))
  {
    hide NoteLines, KeyLine, SinkLines;
  }

  lemma {:induction false} LastFieldAdd(a: seq<Line>, b: seq<Line>, key: string)
    ensures LastField(a + b, key) == if LastField(b, key).Some? then LastField(b, key) else LastField(a, key)
  {
    hide Field;
    if b == [] {
      assert a + b == a;
    } else {
      assert (a + b)[..|a + b| - 1] == a + b[..|b| - 1];
      LastFieldAdd(a, b[..|b| - 1], key);
    }
  }

  lemma {:induction false} NotesSilent(notes: seq<string>, key: string)
    requires IsKey(key) && AllSilent(notes)
    ensures LastField(NoteLines(notes), key) == None
  {
    hide LineOf, Field, Header, Silent;
    if notes != [] {
      SilentLine(notes[0]);
      NotesSilent(notes[1..], key);
      LastFieldAdd([LineOf(notes[0])], NoteLines(notes[1..]), key);
      OneLine(LineOf(notes[0]), key);
    }
  }

  lemma OneLine(l: Line, key: string)
    ensures LastField([l], key) == if l.indented && Field(l.body, key).Some? then Field(l.body, key) else None
  {
    hide Field;
    assert [l][..0] == [];
  }

  /** A rendered fact is read back, and as no other fact. */
  lemma KeyLineStates(own: string, value: string, key: string)
    requires IsKey(own) && IsKey(key) && Clean(value)
    ensures LastField([KeyLine(own, value)], key) == if key == own then Some(value) else None
  {
    KeyLineRead(own, value);
    KeysApart(own + " " + value);
    OneLine(KeyLine(own, value), key);
  }

  /** What the rendered lines of a source say about `key`. */
  lemma BlockStates(s: Source, key: string)
    requires WellFormed(s) && IsKey(key)
    ensures LastField(BlockOf(s), key) ==
            if key == "Name:" then Some(s.name) else if key == "Description:" then Some(s.shown) else s.sink
  {
    hide Field, LastField, NoteLines, AllSilent, Clean, KeyLine;
    NotesSilent(s.aboveName, key);
    NotesSilent(s.aboveShown, key);
    NotesSilent(s.aboveSink, key);
    NotesSilent(s.below, key);
    KeyLineStates("Name:", s.name, key);
    KeyLineStates("Description:", s.shown, key);
    if s.sink.Some? {
      KeyLineStates("Monitor of Sink:", s.sink.value, key);
    }
    NothingStated(key);
    var n, d := [KeyLine("Name:", s.name)], [KeyLine("Description:", s.shown)];
    var b6 := SinkLines(s) + NoteLines(s.below);
    var b5 := NoteLines(s.aboveSink) + b6;
    var b3 := NoteLines(s.aboveShown) + (d + b5);
    LastFieldAdd(SinkLines(s), NoteLines(s.below), key);
    LastFieldAdd(NoteLines(s.aboveSink), b6, key);
    LastFieldAdd(d, b5, key);
    LastFieldAdd(NoteLines(s.aboveShown), d + b5, key);
    LastFieldAdd(n, b3, key);
    LastFieldAdd(NoteLines(s.aboveName), n + b3, key);
  }

  lemma NothingStated(key: string)
    ensures LastField([], key) == None
  {}

  lemma BlockFacts(s: Source)
    requires WellFormed(s)
    ensures FactsOf(BlockOf(s)) == Stated(s)
  {
    hide LastField, BlockOf, WellFormed;
    BlockStates(s, "Name:");
    BlockStates(s, "Description:");
    BlockStates(s, "Monitor of Sink:");
  }

  ghost predicate NoHeader(block: seq<Line>) { forall i :: 0 <= i < |block| ==> !Header(block[i]) }

  lemma {:induction false} NotesNoHeader(notes: seq<string>)
    requires AllSilent(notes)
    ensures NoHeader(NoteLines(notes))
  {
    hide LineOf, Header, Field;
    if notes != [] {
      SilentLine(notes[0]);
      NotesNoHeader(notes[1..]);
    }
  }

  /** No line of a rendered block is a header. */
  lemma BlockNoHeader(s: Source)
    requires WellFormed(s)
    ensures NoHeader(BlockOf(s))
  {
    hide NoteLines, AllSilent, Clean;
    NotesNoHeader(s.aboveName);
    NotesNoHeader(s.aboveShown);
    NotesNoHeader(s.aboveSink);
    NotesNoHeader(s.below);
  }

  lemma {:induction false} BodyOf(block: seq<Line>, rest: seq<Line>)
    requires NoHeader(block) && (rest == [] || Header(rest[0]))
    ensures Body(block + rest) == |block|
    decreases |block|
  {
    hide Header;
    if block == [] {
      assert block + rest == rest;
    } else {
      assert (block + rest)[1..] == block[1..] + rest;
      BodyOf(block[1..], rest);
    }
  }

  /** Lines before the first header belong to no block. */
  lemma {:induction false} BlocksBehind(notes: seq<Line>, rest: seq<Line>)
    requires NoHeader(notes)
    ensures Blocks(notes + rest) == Blocks(rest)
    decreases |notes|
  {
    hide Header;
    if notes == [] {
      assert notes + rest == rest;
    } else {
      assert (notes + rest)[1..] == notes[1..] + rest;
      BlocksBehind(notes[1..], rest);
    }
  }

  lemma BlocksHeaded(h: Line, block: seq<Line>, rest: seq<Line>)
    requires Header(h) && Body(block + rest) == |block|
    ensures Blocks([h] + block + rest) == [block] + Blocks(rest)
  {
    hide Header, Body;
    assert ([h] + block + rest)[1..] == block + rest;
    assert (block + rest)[..|block|] == block && (block + rest)[|block|..] == rest;
  }

  lemma BlocksSource(s: Source, rest: seq<Line>)
    requires WellFormed(s) && (rest == [] || Header(rest[0]))
    ensures Blocks([HeaderOf(s)] + BlockOf(s) + rest) == [BlockOf(s)] + Blocks(rest)
  {
    HeaderRead(s);
    BlockNoHeader(s);
    hide BlockOf, NoHeader, Header, HeaderOf, WellFormed;
    BodyOf(BlockOf(s), rest);
    BlocksHeaded(HeaderOf(s), BlockOf(s), rest);
  }

  lemma {:induction false} BlocksRendered(sources: seq<Source>)
    requires forall i :: 0 <= i < |sources| ==> WellFormed(sources[i])
    ensures Candidates(Blocks(Lines(RenderAll(sources)))) == NonMonitors(sources)
    ensures sources != [] ==> Lines(RenderAll(sources)) != [] && Header(Lines(RenderAll(sources))[0])
    ensures sources == [] ==> Lines(RenderAll(sources)) == []
  {
    hide FactsOf, Blocks, Lines, BlockOf, RenderSource, MicOf, Candidate, CanRecord, AsMic, Header, HeaderOf;
    if sources == [] {
      NothingRendered();
    } else {
      var s, rest := sources[0], RenderAll(sources[1..]);
      BlocksRendered(sources[1..]);
      LinesSource(s, rest);
      HeaderRead(s);
      BlocksSource(s, Lines(rest));
      BlockFacts(s);
      StatedDecides(s);
      CandidatesAdd([BlockOf(s)], Blocks(Lines(rest)));
    }
  }

  lemma NothingRendered()
    ensures Lines("") == [] && Blocks([]) == [] && Candidates([]) == []
  {}

  /** Parsing the rendering of any source list returns exactly the first `max` sources that can record a voice. */
  lemma RenderParse(preamble: seq<string>, sources: seq<Source>, max: int)
    requires AllSilent(preamble) && forall i :: 0 <= i < |sources| ==> WellFormed(sources[i])
    ensures Sources(Render(preamble, sources), max) == Take(NonMonitors(sources), max)
  {
    hide RenderAll, RenderNotes, NoteLines, NonMonitors, Lines, Blocks, Candidates, WellFormed, AllSilent;
    BlocksRendered(sources);
    LinesNotes(preamble, RenderAll(sources));
    NotesNoHeader(preamble);
    BlocksBehind(NoteLines(preamble), Lines(RenderAll(sources)));
  }

  // ------------------------------------------------------------- choosing a microphone --

  function Lower(c: char): char { if 'A' <= c <= 'Z' then (c - 'A') + 'a' else c }

  predicate MatchesAt(hay: string, needle: string, i: nat) {
    i + |needle| <= |hay| && forall j :: 0 <= j < |needle| ==> Lower(hay[i + j]) == Lower(needle[j])
  }

  /** `needle` occurs in `hay`, whatever the case. */
  predicate ContainsCi(hay: string, needle: string) { exists i :: 0 <= i <= |hay| && MatchesAt(hay, needle, i) }

  method FindCi(hay: string, needle: string) returns (found: bool)
    ensures found <==> ContainsCi(hay, needle)
  {
    for at := 0 to |hay|
      invariant forall i :: 0 <= i < at ==> !MatchesAt(hay, needle, i)
    {
      var i := 0;
      while i < |needle| && at + i < |hay| && Lower(hay[at + i]) == Lower(needle[i])
        invariant i <= |needle| && at + i <= |hay|
        invariant forall j :: 0 <= j < i ==> Lower(hay[at + j]) == Lower(needle[j])
      {
        i := i + 1;
      }
      if i == |needle| {
        assert MatchesAt(hay, needle, at);
        return true;
      }
    }
    found := needle == "";
    assert found ==> MatchesAt(hay, needle, |hay|);
  }

  /** `key` is the hardware in the name `<kind>.<device>.<profile>`: what is between its first and last dot. */
  ghost predicate DeviceKeyIs(name: string, key: string) {
    exists first, last :: DotsAt(name, first, last) && key == name[first + 1..last]
  }

  ghost predicate DotsAt(name: string, first: int, last: int) {
    && 0 <= first < last - 1 && last < |name| && name[first] == '.' && name[last] == '.'
    && '.' !in name[..first] && '.' !in name[last + 1..]
  }

  lemma ClearOutside(name: string, f: nat, l: nat)
    requires f <= l < |name| && '.' !in name[..f] && '.' !in name[l + 1..]
    ensures forall i :: 0 <= i < f || l < i < |name| ==> name[i] != '.'
  {
    forall i | 0 <= i < f ensures name[i] != '.' { assert name[i] == name[..f][i]; }
    forall i | l < i < |name| ensures name[i] != '.' { assert name[i] == name[l + 1..][i - l - 1]; }
  }

  lemma DotsUnique(name: string, f: int, l: int, f': int, l': int)
    requires DotsAt(name, f, l) && DotsAt(name, f', l')
    ensures f == f' && l == l'
  {
    ClearOutside(name, f, l);
    ClearOutside(name, f', l');
  }

  lemma KeyUnique(name: string, k: string, k': string)
    requires DeviceKeyIs(name, k) && DeviceKeyIs(name, k')
    ensures k == k'
  {
    var f, l :| DotsAt(name, f, l) && k == name[f + 1..l];
    var f', l' :| DotsAt(name, f', l') && k' == name[f' + 1..l'];
    DotsUnique(name, f, l, f', l');
  }

  /** Both names have the shape of a hardware device, and it is the same one. */
  ghost predicate SameDevice(a: string, b: string) {
    exists key :: DeviceKeyIs(a, key) && DeviceKeyIs(b, key) && |key| < NAME_LEN
  }

  method DeviceKey(name: string) returns (key: Option<string>)
    ensures key.Some? ==> DeviceKeyIs(name, key.value) && |key.value| < NAME_LEN
    ensures key.None? ==> forall k :: DeviceKeyIs(name, k) ==> |k| >= NAME_LEN
  {
    var first := 0;
    while first < |name| && name[first] != '.'
      invariant first <= |name| && '.' !in name[..first]
    {
      assert name[..first + 1] == name[..first] + [name[first]];
      first := first + 1;
    }
    if first == |name| {
      NoDots(name);
      return None;
    }
    var last := |name| - 1;
    while name[last] != '.'
      invariant first <= last < |name| && '.' !in name[last + 1..]
      decreases last
    {
      assert name[last..] == [name[last]] + name[last + 1..];
      last := last - 1;
    }
    if last <= first + 1 {
      CloseDots(name, first, last);
      return None;
    }
    var k := name[first + 1..last];
    assert DotsAt(name, first, last) && DeviceKeyIs(name, k);
    forall k' | DeviceKeyIs(name, k') ensures k' == k { KeyUnique(name, k, k'); }
    key := if |k| >= NAME_LEN then None else Some(k);
  }

  lemma NoDots(name: string)
    requires '.' !in name
    ensures forall k :: !DeviceKeyIs(name, k)
  {
    forall f, l ensures !DotsAt(name, f, l) {
      assert 0 <= f < |name| ==> name[f] != '.';
    }
  }

  lemma CloseDots(name: string, first: nat, last: nat)
    requires first <= last < |name| && last <= first + 1 && '.' !in name[..first] && '.' !in name[last + 1..]
    ensures forall k :: !DeviceKeyIs(name, k)
  {
    ClearOutside(name, first, last);
  }

  predicate NamedLikeMic(m: Mic) { ContainsCi(m.name, "mic") || ContainsCi(m.shown, "mic") }

  /** The letters of "mic", large or small. */
  predicate MicAt(text: string, i: nat) {
    i + 2 < |text| && text[i] in "mM" && text[i + 1] in "iI" && text[i + 2] in "cC"
  }

  /** A microphone is named like one if these letters stand somewhere in its name or in what is shown of it. */
  lemma NamedLikeMicExactly(m: Mic)
    ensures NamedLikeMic(m) <==> (exists i: nat :: MicAt(m.name, i)) || (exists i: nat :: MicAt(m.shown, i))
  {
    hide ContainsCi, MicAt;
    MicInside(m.name);
    MicInside(m.shown);
  }

  lemma MicInside(text: string)
    ensures ContainsCi(text, "mic") <==> exists i: nat :: MicAt(text, i)
  {
    hide MatchesAt;
    forall i: nat ensures i <= |text| && MatchesAt(text, "mic", i) <==> MicAt(text, i) { MicHere(text, i); }
  }

  lemma MicHere(text: string, i: nat)
    ensures i <= |text| && MatchesAt(text, "mic", i) <==> MicAt(text, i)
  {
    var mic := "mic";
    assert mic[0] == 'm' && mic[1] == 'i' && mic[2] == 'c' && Lower('m') == 'm' && Lower('i') == 'i'
      && Lower('c') == 'c';
    if i + 2 < |text| {
      LowerIs(text[i], 'm', 'M');
      LowerIs(text[i + 1], 'i', 'I');
      LowerIs(text[i + 2], 'c', 'C');
      if MatchesAt(text, mic, i) {
        assert Lower(text[i + 0]) == 'm' && Lower(text[i + 1]) == 'i' && Lower(text[i + 2]) == 'c';
      }
    }
  }

  lemma LowerIs(c: char, small: char, large: char)
    requires 'a' <= small <= 'z' && large as int == small as int - 32
    ensures Lower(c) == small <==> c == small || c == large
  {}

  method CheckNamedLikeMic(m: Mic) returns (named: bool)
    ensures named <==> NamedLikeMic(m)
  {
    named := FindCi(m.name, "mic");
    if !named {
      named := FindCi(m.shown, "mic");
    }
  }

  datatype Reason = Nothing | Default | SameHardware | NamedMic | First

  /** How good a choice `m` is, the best class being 0: the default source; on the hardware of the
      default output, and named like a microphone; on that hardware; named like one; any. */
  ghost function Class(m: Mic, source: Option<string>, sink: Option<string>): nat {
    if source.Some? && source.value != "" && m.name == source.value then 0
    else if sink.Some? && SameDevice(sink.value, m.name) then if NamedLikeMic(m) then 1 else 2
    else if NamedLikeMic(m) then 3 else 4
  }

  function ReasonOf(class_: nat): Reason {
    if class_ == 0 then Default else if class_ <= 2 then SameHardware else if class_ == 3 then NamedMic else First
  }

  /** The default source among the microphones. */
  method FindDefault(mics: seq<Mic>, source: Option<string>) returns (pick: int)
    ensures -1 <= pick < |mics|
    ensures forall sink, j :: 0 <= j < (if pick < 0 then |mics| else pick) ==> Class(mics[j], source, sink) > 0
    ensures forall sink :: pick >= 0 ==> Class(mics[pick], source, sink) == 0
  {
    pick := -1;
    if source.Some? && source.value != "" {
      for i := 0 to |mics|
        invariant forall j :: 0 <= j < i ==> mics[j].name != source.value
      {
        if mics[i].name == source.value {
          return i;
        }
      }
    }
  }

  /** The best microphone on the hardware of the default output. */
  method FindOnDevice(mics: seq<Mic>, sink: Option<string>) returns (pick: int)
    ensures -1 <= pick < |mics|
    ensures pick < 0 ==> forall j :: 0 <= j < |mics| ==> Class(mics[j], None, sink) > 2
    ensures pick >= 0 ==> Class(mics[pick], None, sink) <= 2
    ensures pick >= 0 ==> forall j :: 0 <= j < |mics| ==> Class(mics[pick], None, sink) <= Class(mics[j], None, sink)
    ensures pick >= 0 ==> forall j :: 0 <= j < pick ==> Class(mics[pick], None, sink) < Class(mics[j], None, sink)
  {
    hide DeviceKeyIs, NamedLikeMic;
    pick := -1;
    if sink.None? {
      return;
    }
    var sinkKey := DeviceKey(sink.value);
    if sinkKey.None? {
      return;
    }
    var firstSame := -1;
    for i := 0 to |mics|
      invariant -1 <= firstSame < i
      invariant forall j :: 0 <= j < i ==> Class(mics[j], None, sink) >= 2
      invariant forall j :: 0 <= j < (if firstSame < 0 then i else firstSame) ==> Class(mics[j], None, sink) > 2
      invariant firstSame >= 0 ==> Class(mics[firstSame], None, sink) == 2
    {
      var key := DeviceKey(mics[i].name);
      SameKey(sink.value, mics[i].name, sinkKey.value, key);
      if key == sinkKey {
        var named := CheckNamedLikeMic(mics[i]);
        if named {
          return i;
        } else if firstSame < 0 {
          firstSame := i;
        }
      }
    }
    pick := firstSame;
  }

  lemma SameKey(a: string, b: string, k: string, key: Option<string>)
    requires DeviceKeyIs(a, k) && |k| < NAME_LEN
    requires key.Some? ==> DeviceKeyIs(b, key.value) && |key.value| < NAME_LEN
    requires key.None? ==> forall k' :: DeviceKeyIs(b, k') ==> |k'| >= NAME_LEN
    ensures SameDevice(a, b) <==> key == Some(k)
  {
    if SameDevice(a, b) {
      var k' :| DeviceKeyIs(a, k') && DeviceKeyIs(b, k') && |k'| < NAME_LEN;
      KeyUnique(a, k, k');
      if key.Some? { KeyUnique(b, k', key.value); }
    }
  }

  /** The cascade is an argmin: the first microphone of the best class, with its reason; `-1` only
      if there is none. */
  method PickMic(mics: seq<Mic>, source: Option<string>, sink: Option<string>) returns (pick: int, why: Reason)
    ensures mics == [] ==> pick == -1 && why == Nothing
    ensures mics != [] ==>
              && 0 <= pick < |mics| && why == ReasonOf(Class(mics[pick], source, sink))
              && (forall j :: 0 <= j < |mics| ==> Class(mics[pick], source, sink) <= Class(mics[j], source, sink))
              && (forall j :: 0 <= j < pick ==> Class(mics[pick], source, sink) < Class(mics[j], source, sink))
  {
    hide SameDevice, NamedLikeMic;
    why, pick := Nothing, -1;
    if mics == [] {
      return;
    }
    pick := FindDefault(mics, source);
    if pick >= 0 {
      why := Default;
      return;
    }
    assert forall j :: 0 <= j < |mics| ==> Class(mics[j], source, sink) == Class(mics[j], None, sink);
    pick := FindOnDevice(mics, sink);
    if pick >= 0 {
      why := SameHardware;
      return;
    }
    for i := 0 to |mics|
      invariant forall j :: 0 <= j < i ==> Class(mics[j], source, sink) == 4
    {
      var named := CheckNamedLikeMic(mics[i]);
      if named {
        pick, why := i, NamedMic;
        return;
      }
    }
    pick, why := 0, First;
  }
}
