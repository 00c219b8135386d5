/** What the recorders make of their command lines, and that the note about the sound agrees with it. */
module Sound {
  import opened Options
  import opened Digits
  import opened ArgVector
  import opened Commands
  import Devices

  // ----------------------------------------------------------- reading command lines --

  datatype Opt = Opt(flag: string, value: string)

  predicate Bare(arg: string) { arg == "-y" || arg == "-nostdin" }

  /** Flags with their values, and flags without one, up to the end. */
  predicate Paired(args: seq<string>) {
    args == [] || (if Bare(args[0]) then Paired(args[1..]) else |args| >= 2 && Paired(args[2..]))
  }

  function Pairs(args: seq<string>): seq<Opt>
    requires Paired(args)
  {
    if args == [] then []
    else if Bare(args[0]) then Pairs(args[1..])
    else [Opt(args[0], args[1])] + Pairs(args[2..])
  }

  function Values(opts: seq<Opt>, flag: string): seq<string> {
    if opts == [] then []
    else (if opts[0].flag == flag then [opts[0].value] else []) + Values(opts[1..], flag)
  }

  lemma {:induction false} PairsAdd(p: seq<string>, q: seq<string>)
    requires Paired(p) && Paired(q)
    ensures Paired(p + q) && Pairs(p + q) == Pairs(p) + Pairs(q)
  {
    hide Bare;
    if p == [] {
      assert p + q == q;
    } else if Bare(p[0]) {
      assert (p + q)[1..] == p[1..] + q;
      PairsAdd(p[1..], q);
    } else {
      assert (p + q)[2..] == p[2..] + q;
      PairsAdd(p[2..], q);
    }
  }

  lemma {:induction false} ValuesAdd(p: seq<Opt>, q: seq<Opt>, flag: string)
    ensures Values(p + q, flag) == Values(p, flag) + Values(q, flag)
  {
    if p == [] {
      assert p + q == q;
    } else {
      assert (p + q)[1..] == p[1..] + q;
      ValuesAdd(p[1..], q, flag);
    }
  }

  /** The values that a paired list gives a flag. */
  function ValuesOf(args: seq<string>, flag: string): seq<string>
    requires Paired(args)
  {
    Values(Pairs(args), flag)
  }

  lemma GivenAdd(p: seq<string>, q: seq<string>, flag: string)
    requires Paired(p) && Paired(q)
    ensures Paired(p + q) && ValuesOf(p + q, flag) == ValuesOf(p, flag) + ValuesOf(q, flag)
  {
    PairsAdd(p, q);
    ValuesAdd(Pairs(p), Pairs(q), flag);
  }

  lemma GivenPair(flag: string, value: string, rest: seq<string>, wanted: string)
    requires !Bare(flag) && Paired(rest)
    ensures Paired([flag, value] + rest)
    ensures ValuesOf([flag, value] + rest, wanted) == (if flag == wanted then [value] else []) + ValuesOf(rest, wanted)
  {
    var all := [flag, value] + rest;
    assert all[2..] == rest;
    assert Pairs(all) == [Opt(flag, value)] + Pairs(rest);
    assert ([Opt(flag, value)] + Pairs(rest))[1..] == Pairs(rest);
  }

  /** The pieces of `s` between separators. */
  function Split(s: string, sep: char): (pieces: seq<string>)
    ensures pieces != [] && forall i :: 0 <= i < |pieces| ==> sep !in pieces[i]
  {
    if s == "" then [""]
    else if s[0] == sep then [""] + Split(s[1..], sep)
    else
      var rest := Split(s[1..], sep);
      [[s[0]] + rest[0]] + rest[1..]
  }

  lemma {:induction false} SplitNone(s: string, sep: char)
    requires sep !in s
    ensures Split(s, sep) == [s]
  {
    if s != "" {
      SplitNone(s[1..], sep);
      assert [s[0]] + s[1..] == s;
    }
  }

  lemma {:induction false} SplitAdd(a: string, b: string, sep: char)
    requires sep !in a
    ensures Split(a + [sep] + b, sep) == [a] + Split(b, sep)
  {
    var s := a + [sep] + b;
    if a == "" {
      assert s[1..] == b;
    } else {
      assert s[1..] == a[1..] + [sep] + b;
      SplitAdd(a[1..], b, sep);
      assert [a[0]] + a[1..] == a;
    }
  }

  // -------------------------------------------------------------------- the sources --

  /** What is between the program and the last argument. */
  function Middle(args: seq<string>): seq<string> { if |args| < 2 then [] else args[1..|args| - 1] }

  /** The audio sources that a recorder finds in its command: gpu-screen-recorder in the parts of
      `-a`, wf-recorder in its one `--audio`, ffmpeg in its inputs after the first, the screen. */
  function Sources(backend: Backend, args: seq<string>): seq<string> {
    match backend
    case NoRecorder => []
    case Gsr =>
      if args != [] && Paired(args[1..]) && ValuesOf(args[1..], "-a") != []
      then Split(ValuesOf(args[1..], "-a")[0], '|') else []
    case WfRecorder => if |args| > 1 && |args[1]| >= 8 then [args[1][8..]] else []
    case Ffmpeg =>
      if Paired(Middle(args)) && ValuesOf(Middle(args), "-i") != [] then ValuesOf(Middle(args), "-i")[1..] else []
  }

  /** The video arguments, if replaced, are options with one input. */
  predicate OneVideoInput(c: Capture) {
    c.videoInput.Some? ==> Paired(c.videoInput.value) && |ValuesOf(c.videoInput.value, "-i")| == 1
                           && ValuesOf(c.videoInput.value, "-map") == []
                           && ValuesOf(c.videoInput.value, "-filter_complex") == []
  }

  lemma Read1(f: string, v: string, wanted: string)
    requires !Bare(f)
    ensures Paired([f, v]) && ValuesOf([f, v], wanted) == if f == wanted then [v] else []
  {
    GivenPair(f, v, [], wanted);
    assert [f, v] + [] == [f, v];
  }

  lemma Read2(f: string, v: string, f': string, v': string, wanted: string)
    requires !Bare(f) && !Bare(f')
    ensures Paired([f, v, f', v'])
    ensures ValuesOf([f, v, f', v'], wanted) == (if f == wanted then [v] else []) + (if f' == wanted then [v'] else [])
  {
    Read1(f', v', wanted);
    GivenPair(f, v, [f', v'], wanted);
    assert [f, v] + [f', v'] == [f, v, f', v'];
  }

  /** A number as a reader of decimal text takes it, with its sign. */
  predicate ReadsAs(text: string, n: int) {
    if text != "" && text[0] == '-' then AllDigits(text[1..]) && 0 - ReadDecimal(text[1..]) == n
    else text != "" && AllDigits(text) && ReadDecimal(text) == n
  }

  lemma DecimalReads(n: int)
    ensures ReadsAs(Decimal(n), n)
  {
    var m: nat := if n < 0 then -n else n;
    ReversedDigits(IntText(m));
    if m > 0 {
      ReadReversed(m);
    } else {
      assert Reversed("0") == "0" && "0"[..0] == "" && ReadDecimal("0") == 0;
    }
    if n < 0 { assert ("-" + Reversed(IntText(-n)))[1..] == Reversed(IntText(-n)); }
  }

  /** The setting of a quality or codec, given its three steps; a number that is none of them counts as `other`. */
  function Step(n: int, other: string, low: string, middle: string, high: string): string {
    if n == 0 then low else if n == 1 then middle else if n == 2 then high else other
  }

  /** Which recorder is chosen: gpu-screen-recorder wherever it is there, and none if the name of the microphone is too
      long for it, wf-recorder under Wayland with a desktop source, and ffmpeg otherwise. */
  lemma ChosenExactly(c: Capture)
    ensures var r := Chosen(c).backend;
            && (r == Gsr <==> Given(c.out) && c.hasGsr && (Given(c.mic) ==> |c.mic.value| < 209))
            && (r == WfRecorder <==> Given(c.out) && !c.hasGsr && c.wayland && c.hasWf && Given(c.desktop)
                                     && |c.desktop.value| < 200)
            && (r == Ffmpeg <==> Given(c.out) && !c.hasGsr && !(c.wayland && c.hasWf && Given(c.desktop))
                                 && c.hasFfmpeg)
  {
    hide GsrAudio, FfmpegArgs, WfArgs, GsrArgs, FfmpegNote;
    AudioLength(c);
  }

  /** Each command begins with its program; without a recorder there is neither a command nor a note. */
  lemma ProgramFirst(c: Capture)
    ensures var r := Chosen(c);
            if r.backend == NoRecorder then r.args == [] && r.note == Empty
            else r.args != [] && r.note != Empty && r.args[0] == match r.backend
                   case Gsr => "gpu-screen-recorder" case WfRecorder => "wf-recorder" case _ => "ffmpeg"
  {
    hide GsrAudio, FfmpegArgs, WfArgs, GsrArgs;
    if c.out.Some? {
      GsrReads(c, "-o");
      FfmpegMiddle(c);
      if c.desktop.Some? { WfReads(c, "-f"); }
    }
  }

  lemma AudioLength(c: Capture)
    ensures Given(c.mic) ==> |GsrAudio(c)| == 15 + |c.mic.value|
    ensures c.desktop.Some? ==> |"--audio=" + c.desktop.value| == 8 + |c.desktop.value|
  {}

  /** What the command of gpu-screen-recorder has to say for each flag. */
  function GsrSetting(c: Capture, flag: string): seq<string> {
    match flag
    case "-w" => [if c.wayland then "portal" else "screen"]
    case "-f" => ["60"]
    case "-s" => [Step(c.quality, "1920x1080", "1280x720", "1920x1080", "3840x2160")]
    case "-a" => [if Commands.Given(c.mic) then "default_output|" + c.mic.value else "default_output"]
    case "-r" => if c.replay then [Decimal(c.replaySeconds)] else []
    case "-k" => [Step(c.codec, "h264", "h264", "hevc", "av1")]
    case "-q" => [Step(c.quality, "high", "medium", "high", "very_high")]
    case "-c" => if c.replay then [if c.mkv then "mkv" else "mp4"] else []
    case "-o" => if c.out.Some? then [c.out.value] else []
    case _ => []
  }

  /** The value, if this is the flag that is asked for. */
  function If(flag: string, wanted: string, value: string): seq<string> { if flag == wanted then [value] else [] }

  function GsrList(c: Capture, wanted: string): seq<string> {
    (If("-w", wanted, GsrCapture(c)[2]) + If("-f", wanted, "60"))
    + (If("-s", wanted, GsrSound(c)[1]) + If("-a", wanted, GsrAudio(c)))
    + (if c.replay then If("-r", wanted, Decimal(c.replaySeconds)) else [])
    + (If("-k", wanted, GsrCoding(c)[1]) + If("-q", wanted, GsrCoding(c)[3]))
    + (if c.replay then If("-c", wanted, if c.mkv then "mkv" else "mp4") else [])
    + (if c.out.Some? then If("-o", wanted, c.out.value) else [])
  }

  lemma GsrTable(c: Capture, wanted: string)
    ensures GsrList(c, wanted) == GsrSetting(c, wanted)
  {
    hide Decimal, Step, Quality, Codec, Pick;
    GsrSteps(c);
  }

  /** The command of gpu-screen-recorder is the program and flags, and says this for each of them. */
  lemma GsrReads(c: Capture, wanted: string)
    requires c.out.Some?
    ensures GsrArgs(c) != [] && GsrArgs(c)[0] == "gpu-screen-recorder" && Paired(GsrArgs(c)[1..])
    ensures ValuesOf(GsrArgs(c)[1..], wanted) == GsrSetting(c, wanted)
  {
    hide Paired, ValuesOf, Decimal, GsrSetting, GsrAudio, Pick;
    var p0 := GsrCapture(c)[1..];
    Read2("-w", p0[1], "-f", "60", wanted);
    assert p0 == ["-w", p0[1], "-f", "60"];
    Read2("-s", GsrSound(c)[1], "-a", GsrAudio(c), wanted);
    Read1("-r", Decimal(c.replaySeconds), wanted);
    Read2("-k", GsrCoding(c)[1], "-q", GsrCoding(c)[3], wanted);
    Read1("-c", if c.mkv then "mkv" else "mp4", wanted);
    Read1("-o", c.out.value, wanted);
    NothingRead(wanted);
    GsrParts(c, p0, wanted);
    GsrTable(c, wanted);
  }

  lemma GsrSteps(c: Capture)
    ensures GsrSound(c) == ["-s", Step(c.quality, "1920x1080", "1280x720", "1920x1080", "3840x2160"), "-a", GsrAudio(c)]
    ensures GsrCoding(c) == ["-k", Step(c.codec, "h264", "h264", "hevc", "av1"),
                             "-q", Step(c.quality, "high", "medium", "high", "very_high")]
  {}

  lemma NothingRead(wanted: string)
    ensures Paired([]) && ValuesOf([], wanted) == []
  {}

  lemma GsrParts(c: Capture, p0: seq<string>, wanted: string)
    requires c.out.Some? && p0 == GsrCapture(c)[1..] && Paired(p0)
    requires Paired(GsrSound(c)) && Paired(GsrReplay(c)) && Paired(GsrCoding(c)) && Paired(GsrContainer(c))
    requires Paired(["-o", c.out.value])
    ensures Paired(GsrArgs(c)[1..])
    ensures ValuesOf(GsrArgs(c)[1..], wanted) ==
            ValuesOf(p0, wanted) + ValuesOf(GsrSound(c), wanted) + ValuesOf(GsrReplay(c), wanted)
            + ValuesOf(GsrCoding(c), wanted) + ValuesOf(GsrContainer(c), wanted) + ValuesOf(["-o", c.out.value], wanted)
  {
    hide Paired, ValuesOf, GsrAudio, GsrSound, GsrReplay, GsrCoding, GsrContainer;
    var p1 := p0 + GsrSound(c);
    var p2 := p1 + GsrReplay(c);
    var p3 := p2 + GsrCoding(c);
    var p4 := p3 + GsrContainer(c);
    GivenAdd(p0, GsrSound(c), wanted);
    GivenAdd(p1, GsrReplay(c), wanted);
    GivenAdd(p2, GsrCoding(c), wanted);
    GivenAdd(p3, GsrContainer(c), wanted);
    GivenAdd(p4, ["-o", c.out.value], wanted);
    assert GsrArgs(c)[1..] == p4 + ["-o", c.out.value];
  }

  /** The command of wf-recorder: its one sound source, and the file. */
  lemma WfReads(c: Capture, wanted: string)
    requires c.out.Some? && c.desktop.Some?
    ensures var args := WfArgs(c);
            && |args| == 4 && args[0] == "wf-recorder" && args[1] == "--audio=" + c.desktop.value
            && Paired(args[2..]) && ValuesOf(args[2..], wanted) == if wanted == "-f" then [c.out.value] else []
  {
    hide Paired, ValuesOf;
    Read1("-f", c.out.value, wanted);
    assert WfArgs(c)[2..] == ["-f", c.out.value];
  }

  // ------------------------------------------------------------------------- ffmpeg --

  function Repeated(value: string, n: nat): seq<string> { seq(n, _ => value) }

  /** What ffmpeg is told of `n` audio inputs. */
  function InputSetting(c: Capture, inputs: seq<string>, flag: string): seq<string> {
    match flag
    case "-thread_queue_size" => Repeated("1024", |inputs|)
    case "-f" => Repeated(if c.audioFormat.Some? then c.audioFormat.value else "pulse", |inputs|)
    case "-i" => inputs
    case _ => []
  }

  lemma OneInput(c: Capture, input: string, wanted: string)
    ensures Paired(InputArgs(c, input)) && ValuesOf(InputArgs(c, input), wanted) == InputSetting(c, [input], wanted)
  {
    hide Paired, ValuesOf;
    Read1("-thread_queue_size", "1024", wanted);
    Read2("-f", Format(c), "-i", input, wanted);
    GivenAdd(["-thread_queue_size", "1024"], ["-f", Format(c), "-i", input], wanted);
    assert InputArgs(c, input) == ["-thread_queue_size", "1024"] + ["-f", Format(c), "-i", input];
    assert forall v: string :: Repeated(v, 1) == [v];
  }

  lemma OneMoreInput(c: Capture, inputs: seq<string>, input: string, wanted: string)
    ensures InputSetting(c, inputs + [input], wanted) ==
            InputSetting(c, inputs, wanted) + InputSetting(c, [input], wanted)
  {}

  lemma {:induction false} InputsRead(c: Capture, inputs: seq<string>, wanted: string)
    ensures Paired(AllInputArgs(c, inputs))
    ensures ValuesOf(AllInputArgs(c, inputs), wanted) == InputSetting(c, inputs, wanted)
  {
    hide Paired, ValuesOf, InputArgs, InputSetting;
    if inputs == [] {
      NothingRead(wanted);
      NoInputs(c, wanted);
    } else {
      var n := |inputs| - 1;
      assert inputs == inputs[..n] + [inputs[n]];
      InputsRead(c, inputs[..n], wanted);
      OneInput(c, inputs[n], wanted);
      OneMoreInput(c, inputs[..n], inputs[n], wanted);
      GivenAdd(AllInputArgs(c, inputs[..n]), InputArgs(c, inputs[n]), wanted);
    }
  }

  lemma NoInputs(c: Capture, wanted: string)
    ensures InputSetting(c, [], wanted) == []
  {}

  /** The screen, unless the video input is replaced: as large as the display, thirty times a second. */
  function ScreenSetting(c: Capture, flag: string): seq<string> {
    match flag
    case "-f" => ["x11grab"]
    case "-r" => ["30"]
    case "-s" => [Decimal(c.width) + "x" + Decimal(c.height)]
    case "-i" => [if c.display.Some? then c.display.value else ":0"]
    case _ => []
  }

  lemma ScreenRead(c: Capture, wanted: string)
    requires c.videoInput.None?
    ensures Paired(VideoArgs(c)) && ValuesOf(VideoArgs(c), wanted) == ScreenSetting(c, wanted)
  {
    hide Paired, ValuesOf, Decimal;
    var v := VideoArgs(c);
    Read2("-f", "x11grab", "-r", "30", wanted);
    Read2("-s", v[5], "-i", v[7], wanted);
    GivenAdd(["-f", "x11grab", "-r", "30"], ["-s", v[5], "-i", v[7]], wanted);
    assert v == ["-f", "x11grab", "-r", "30"] + ["-s", v[5], "-i", v[7]];
  }

  lemma VideoRead(c: Capture, wanted: string)
    requires OneVideoInput(c) && wanted in {"-i", "-map", "-filter_complex"}
    ensures Paired(VideoArgs(c)) && |ValuesOf(VideoArgs(c), wanted)| == if wanted == "-i" then 1 else 0
  {
    if c.videoInput.None? { ScreenRead(c, wanted); }
  }

  /** The maps of the command: the screen, and the one audio input or the mix. */
  function Maps(inputs: nat): seq<string> {
    if inputs == 2 then ["0:v", "[a]"] else if inputs == 1 then ["0:v", "1:a"] else ["0:v"]
  }

  function MapSetting(inputs: nat, flag: string): seq<string> {
    match flag
    case "-map" => Maps(inputs)
    case "-filter_complex" => if inputs == 2 then [MIX] else []
    case _ => []
  }

  lemma MapsRead(inputs: nat, wanted: string)
    ensures Paired(MapArgs(inputs)) && ValuesOf(MapArgs(inputs), wanted) == MapSetting(inputs, wanted)
  {
    hide Paired, ValuesOf;
    Read1("-map", "0:v", wanted);
    Read2("-map", "0:v", "-map", "1:a", wanted);
    Read2("-filter_complex", MIX, "-map", "0:v", wanted);
    Read1("-map", "[a]", wanted);
    GivenAdd(["-filter_complex", MIX, "-map", "0:v"], ["-map", "[a]"], wanted);
    assert inputs == 2 ==> MapArgs(inputs) == ["-filter_complex", MIX, "-map", "0:v"] + ["-map", "[a]"];
  }

  /** How picture and sound are encoded. The encoder for AV1 wants a number for its preset. */
  function CodingSetting(c: Capture, inputs: nat, flag: string): seq<string> {
    match flag
    case "-vf" => [Step(c.quality, "scale=1920:-2", "scale=1280:-2", "scale=1920:-2", "scale=3840:-2")]
    case "-c:v" => [Step(c.codec, "libx264", "libx264", "libx265", "libsvtav1")]
    case "-preset" => [if c.codec == 2 then "10" else "veryfast"]
    case "-crf" => [Step(c.quality, "24", "28", "24", "22")]
    case "-c:a" => if inputs > 0 then ["aac"] else []
    case _ => []
  }

  lemma CodingSteps(c: Capture)
    ensures var e := EncodeArgs(c);
            && e[1] == Step(c.quality, "scale=1920:-2", "scale=1280:-2", "scale=1920:-2", "scale=3840:-2")
            && e[3] == Step(c.codec, "libx264", "libx264", "libx265", "libsvtav1")
            && e[5] == (if c.codec == 2 then "10" else "veryfast") && e[7] == Step(c.quality, "24", "28", "24", "22")
  {}

  lemma CodingRead(c: Capture, inputs: nat, wanted: string)
    ensures Paired(EncodeArgs(c)) && Paired(AudioArgs(inputs))
    ensures ValuesOf(EncodeArgs(c), wanted) + ValuesOf(AudioArgs(inputs), wanted) == CodingSetting(c, inputs, wanted)
  {
    CodingSteps(c);
    hide Paired, ValuesOf, Pick, Step, Quality, Codec;
    var e := EncodeArgs(c);
    Read2("-vf", e[1], "-c:v", e[3], wanted);
    Read2("-preset", e[5], "-crf", e[7], wanted);
    GivenAdd(["-vf", e[1], "-c:v", e[3]], ["-preset", e[5], "-crf", e[7]], wanted);
    assert e == ["-vf", e[1], "-c:v", e[3]] + ["-preset", e[5], "-crf", e[7]];
    Read1("-c:a", "aac", wanted);
    NothingRead(wanted);
  }

  lemma BareRead(wanted: string)
    ensures Paired(["-y", "-nostdin"]) && ValuesOf(["-y", "-nostdin"], wanted) == []
  {
    assert ["-y", "-nostdin"][1..] == ["-nostdin"] && ["-nostdin"][1..] == [];
  }

  /** The command begins with the program and ends with the file. */
  lemma FfmpegMiddle(c: Capture)
    requires c.out.Some?
    ensures var args, inputs := FfmpegArgs(c), AudioInputs(c);
            && |args| >= 2 && args[0] == "ffmpeg" && args[|args| - 1] == c.out.value
            && Middle(args) == ["-y", "-nostdin"] + VideoArgs(c) + AllInputArgs(c, inputs)
                               + MapArgs(|inputs|) + EncodeArgs(c) + AudioArgs(|inputs|)
  {
    hide VideoArgs, AllInputArgs, MapArgs, EncodeArgs, AudioArgs, AudioInputs, Middle;
    var n := |AudioInputs(c)|;
    MiddleOf(VideoArgs(c), AllInputArgs(c, AudioInputs(c)), MapArgs(n), EncodeArgs(c), AudioArgs(n), c.out.value);
  }

  lemma MiddleOf(b: seq<string>, c: seq<string>, d: seq<string>, e: seq<string>, f: seq<string>, out: string)
    ensures var args := ["ffmpeg", "-y", "-nostdin"] + b + c + d + e + f + [out];
            && |args| >= 2 && args[0] == "ffmpeg" && args[|args| - 1] == out
            && Middle(args) == ["-y", "-nostdin"] + b + c + d + e + f
  {
    var args := ["ffmpeg", "-y", "-nostdin"] + b + c + d + e + f + [out];
    var body := ["-y", "-nostdin"] + b + c + d + e + f;
    assert args == ["ffmpeg"] + body + [out];
  }

  lemma ReadAll(a: seq<string>, b: seq<string>, c: seq<string>, d: seq<string>, e: seq<string>, f: seq<string>,
                wanted: string)
    requires Paired(a) && Paired(b) && Paired(c) && Paired(d) && Paired(e) && Paired(f)
    ensures Paired(a + b + c + d + e + f)
    ensures ValuesOf(a + b + c + d + e + f, wanted) == ValuesOf(a, wanted) + ValuesOf(b, wanted) + ValuesOf(c, wanted)
                                                       + ValuesOf(d, wanted) + ValuesOf(e, wanted) + ValuesOf(f, wanted)
  {
    hide Paired, ValuesOf;
    GivenAdd(a, b, wanted);
    GivenAdd(a + b, c, wanted);
    GivenAdd(a + b + c, d, wanted);
    GivenAdd(a + b + c + d, e, wanted);
    GivenAdd(a + b + c + d + e, f, wanted);
  }

  lemma LastTwo(v: seq<string>, i: seq<string>, m: seq<string>, e: seq<string>, s: seq<string>)
    ensures [] + v + i + m + e + s == v + i + m + (e + s)
  {
    assert [] + v == v;
  }

  /** What ffmpeg finds in its command for each flag: the settings of the screen, of the audio inputs, of the
      maps and of the encoders, in this order. */
  lemma FfmpegReads(c: Capture, wanted: string)
    requires c.out.Some? && (c.videoInput.Some? ==> Paired(c.videoInput.value))
    ensures Paired(Middle(FfmpegArgs(c))) && Paired(VideoArgs(c))
    ensures var inputs := AudioInputs(c);
            && (c.videoInput.None? ==> ValuesOf(VideoArgs(c), wanted) == ScreenSetting(c, wanted))
            && ValuesOf(Middle(FfmpegArgs(c)), wanted) ==
               ValuesOf(VideoArgs(c), wanted) + InputSetting(c, inputs, wanted) + MapSetting(|inputs|, wanted)
               + CodingSetting(c, |inputs|, wanted)
  {
    var inputs := AudioInputs(c);
    if c.videoInput.None? { ScreenRead(c, wanted); }
    BareRead(wanted);
    InputsRead(c, inputs, wanted);
    MapsRead(|inputs|, wanted);
    CodingRead(c, |inputs|, wanted);
    FfmpegMiddle(c);
    hide Paired, ValuesOf, VideoArgs, AllInputArgs, MapArgs, EncodeArgs, AudioArgs, AudioInputs, FfmpegArgs, Middle,
         InputSetting, MapSetting, CodingSetting, ScreenSetting;
    ReadAll(["-y", "-nostdin"], VideoArgs(c), AllInputArgs(c, inputs), MapArgs(|inputs|), EncodeArgs(c),
      AudioArgs(|inputs|), wanted);
    LastTwo(ValuesOf(VideoArgs(c), wanted), ValuesOf(AllInputArgs(c, inputs), wanted),
      ValuesOf(MapArgs(|inputs|), wanted), ValuesOf(EncodeArgs(c), wanted), ValuesOf(AudioArgs(|inputs|), wanted));
  }

  /** Of inputs, maps and filters only these settings speak. */
  lemma FfmpegWires(c: Capture, wanted: string)
    requires c.out.Some? && OneVideoInput(c) && wanted in {"-i", "-map", "-filter_complex"}
    ensures Paired(Middle(FfmpegArgs(c))) && Paired(VideoArgs(c))
    ensures var n := |AudioInputs(c)|;
            ValuesOf(Middle(FfmpegArgs(c)), wanted) ==
            ValuesOf(VideoArgs(c), wanted) + if wanted == "-i" then AudioInputs(c)
              else if wanted == "-map" then Maps(n) else if n == 2 then [MIX] else []
  {
    hide Paired, ValuesOf, VideoArgs, AudioInputs, FfmpegArgs, Middle, Maps, ScreenSetting, InputSetting, MapSetting,
         CodingSetting, OneVideoInput;
    PairedVideo(c);
    FfmpegReads(c, wanted);
    WireSettings(c, AudioInputs(c), wanted);
    var v, i, m := ValuesOf(VideoArgs(c), wanted), InputSetting(c, AudioInputs(c), wanted),
      MapSetting(|AudioInputs(c)|, wanted);
    assert v + i + m + [] == v + (i + m);
  }

  lemma PairedVideo(c: Capture)
    requires OneVideoInput(c)
    ensures c.videoInput.Some? ==> Paired(c.videoInput.value)
  {}

  lemma WireSettings(c: Capture, inputs: seq<string>, wanted: string)
    requires wanted in {"-i", "-map", "-filter_complex"}
    ensures CodingSetting(c, |inputs|, wanted) == []
    ensures InputSetting(c, inputs, wanted) + MapSetting(|inputs|, wanted) ==
            if wanted == "-i" then inputs else if wanted == "-map" then Maps(|inputs|)
            else if |inputs| == 2 then [MIX] else []
  {
    hide Maps, Step;
  }

  // ------------------------------------------------------------------- the main results --

  /** The note about the microphone is true of the command. */
  predicate MicNoteTrue(c: Capture) {
    var choice := Chosen(c);
    SaysMic(choice.note) <==> Commands.Given(c.mic) && c.mic.value in Sources(choice.backend, choice.args)
  }

  /** The desktop sound as the recorder is told of it. */
  function DesktopName(c: Capture): string {
    if Chosen(c).backend == Gsr then "default_output" else if c.desktop.Some? then c.desktop.value else ""
  }

  /** The microphone is an audio source of the command exactly when the note says so. The only
      exceptions: gpu-screen-recorder would split a name with a bar in it, and for wf-recorder the
      microphone might be the very source that is recorded as the desktop. */
  lemma NoteMatchesCommand(c: Capture)
    requires Chosen(c).backend != NoRecorder && OneVideoInput(c)
    ensures MicNoteTrue(c) <==>
            match Chosen(c).backend
            case Gsr => !(Commands.Given(c.mic) && '|' in c.mic.value)
            case WfRecorder => !(Commands.Given(c.mic) && c.desktop == c.mic)
            case _ => true
  {
    hide GsrArgs, WfArgs, FfmpegArgs, GsrAudio, Sources, OneVideoInput, Split;
    match Chosen(c).backend {
      case Gsr =>
        GsrSources(c);
        if Commands.Given(c.mic) {
          MicPiece(c.mic.value);
        }
      case WfRecorder =>
        WfSources(c);
      case Ffmpeg =>
        FfmpegSources(c);
    }
  }

  lemma MicPiece(mic: string)
    ensures mic in ["default_output"] + Split(mic, '|') <==> '|' !in mic
  {
    if '|' !in mic {
      SplitNone(mic, '|');
      assert mic in [mic];
    } else {
      assert '|' !in "default_output";
    }
  }

  lemma GsrSources(c: Capture)
    requires c.out.Some?
    ensures Sources(Gsr, GsrArgs(c)) ==
            if Commands.Given(c.mic) then ["default_output"] + Split(c.mic.value, '|') else ["default_output"]
  {
    GsrReads(c, "-a");
    hide GsrArgs, Paired, ValuesOf;
    if Commands.Given(c.mic) {
      assert GsrAudio(c) == "default_output" + ['|'] + c.mic.value;
      SplitAdd("default_output", c.mic.value, '|');
      if '|' !in c.mic.value {
        SplitNone(c.mic.value, '|');
      }
    } else {
      SplitNone("default_output", '|');
    }
  }

  lemma WfSources(c: Capture)
    requires c.out.Some? && c.desktop.Some?
    ensures Sources(WfRecorder, WfArgs(c)) == [c.desktop.value]
  {
    assert ("--audio=" + c.desktop.value)[8..] == c.desktop.value;
  }

  lemma FfmpegSources(c: Capture)
    requires c.out.Some? && OneVideoInput(c)
    ensures Sources(Ffmpeg, FfmpegArgs(c)) == AudioInputs(c)
  {
    FfmpegWires(c, "-i");
    VideoRead(c, "-i");
    hide FfmpegArgs, Paired, ValuesOf, VideoArgs;
    var v := ValuesOf(VideoArgs(c), "-i");
    assert (v + AudioInputs(c))[1..] == AudioInputs(c);
  }

  // -------------------------------------------------------------------- ffmpeg maps --

  /** The map names input `d` directly. */
  predicate MapNames(m: string, d: nat) { |m| >= 2 && d < 10 && m[0] == DigitChar(d) && m[1] == ':' }

  /** The filter reads input `d`. */
  predicate FilterNames(f: string, d: nat) {
    d < 10 && exists i :: 0 <= i < |f| - 2 && f[i] == '[' && f[i + 1] == DigitChar(d) && f[i + 2] == ':'
  }

  /** The map is a label that the filter produces. */
  predicate Produces(f: string, m: string) { m != "" && m[0] == '[' && Devices.EndsWith(f, m) }

  lemma NoBracket(s: string, i: int)
    requires s in {"amix=inputs=2:", "duration=longest:", "normalize=0"} && 0 <= i < |s|
    ensures s[i] != '['
  {}

  lemma MixNames(d: nat)
    ensures FilterNames(MIX, d) <==> d == 1 || d == 2
    ensures Produces(MIX, "[a]")
  {
    var head, p, q, r := "[1:a][2:a]", "amix=inputs=2:", "duration=longest:", "normalize=0";
    assert MIX == head + p + q + r + "[a]";
    assert MIX[0] == '[' && MIX[1] == '1' && MIX[2] == ':';
    assert MIX[5] == '[' && MIX[6] == '2' && MIX[7] == ':';
    assert MIX[|MIX| - 3..] == "[a]";
    forall i | 0 <= i < |MIX| - 2 && MIX[i] == '[' ensures i == 0 || i == 5 || i == |MIX| - 3 {
      if 10 <= i < 24 { NoBracket(p, i - 10); }
      if 24 <= i < 41 { NoBracket(q, i - 24); }
      if 41 <= i < 52 { NoBracket(r, i - 41); }
    }
  }

  ghost predicate Reaches(maps: seq<string>, filters: seq<string>, d: nat) {
    (exists m :: m in maps && MapNames(m, d)) || (exists f :: f in filters && FilterNames(f, d))
  }

  /** Maps and filters name existing inputs, every label has a filter that produces it, and every
      input reaches the output. */
  ghost predicate MapsSound(inputs: nat, maps: seq<string>, filters: seq<string>) {
    && (forall m, d: nat :: m in maps && MapNames(m, d) ==> d < inputs)
    && (forall f, d: nat :: f in filters && FilterNames(f, d) ==> d < inputs)
    && (forall m :: m in maps ==> (exists d: nat :: MapNames(m, d)) || (exists f :: f in filters && Produces(f, m)))
    && (forall d: nat :: d < inputs ==> Reaches(maps, filters, d))
  }

  lemma BuiltMapsSound(n: nat)
    requires n <= 2
    ensures MapsSound(n + 1, Maps(n), if n == 2 then [MIX] else [])
  {
    hide FilterNames, Produces;
    var maps, filters := Maps(n), if n == 2 then [MIX] else [];
    forall d: nat ensures FilterNames(MIX, d) <==> d == 1 || d == 2 { MixNames(d); }
    MixNames(0);
    assert MapNames("0:v", 0) && MapNames("1:a", 1);
    assert forall d: nat :: !MapNames("[a]", d);
    forall d: nat | d < n + 1 ensures Reaches(maps, filters, d) {
      if n == 2 && d > 0 {
        assert MIX in filters && FilterNames(MIX, d);
      } else {
        assert maps[d] in maps && MapNames(maps[d], d);
      }
    }
    forall m | m in maps ensures (exists d: nat :: MapNames(m, d)) || (exists f :: f in filters && Produces(f, m)) {
      if m == "[a]" {
        assert n == 2 && MIX in filters && Produces(MIX, m);
      } else {
        assert m == "0:v" || m == "1:a";
      }
    }
  }

  lemma FfmpegLists(c: Capture)
    requires c.out.Some? && OneVideoInput(c)
    ensures var body, n := Middle(FfmpegArgs(c)), |AudioInputs(c)|;
            && Paired(body) && |ValuesOf(body, "-i")| == n + 1
            && ValuesOf(body, "-map") == Maps(n) && ValuesOf(body, "-filter_complex") == if n == 2 then [MIX] else []
  {
    hide FfmpegArgs, Middle, Paired, ValuesOf, VideoArgs, Maps, AudioInputs;
    FfmpegWires(c, "-i");
    FfmpegWires(c, "-map");
    FfmpegWires(c, "-filter_complex");
    VideoRead(c, "-i");
    VideoRead(c, "-map");
    VideoRead(c, "-filter_complex");
  }

  /** In the ffmpeg command every map and every filter names inputs that exist, and every input,
      the microphone included, reaches the output. */
  lemma MapsExist(c: Capture)
    requires Chosen(c).backend == Ffmpeg && OneVideoInput(c)
    ensures var body := Middle(Chosen(c).args);
            && Paired(body) && |ValuesOf(body, "-i")| == |AudioInputs(c)| + 1
            && MapsSound(|ValuesOf(body, "-i")|, ValuesOf(body, "-map"), ValuesOf(body, "-filter_complex"))
  {
    hide FfmpegArgs, Middle, Paired, ValuesOf, MapsSound, Maps, OneVideoInput, GsrArgs, WfArgs, FfmpegNote;
    FfmpegLists(c);
    BuiltMapsSound(|AudioInputs(c)|);
  }

  /** The desktop is an audio source of the command exactly when the note says so. */
  lemma DesktopNoteTrue(c: Capture)
    requires Chosen(c).backend != NoRecorder && OneVideoInput(c)
    ensures SaysDesktop(Chosen(c).note) <==> DesktopName(c) in Sources(Chosen(c).backend, Chosen(c).args)
  {
    hide GsrArgs, WfArgs, FfmpegArgs, GsrAudio, Sources, OneVideoInput, Split;
    match Chosen(c).backend {
      case Gsr =>
        GsrSources(c);
        assert Sources(Gsr, GsrArgs(c))[0] == "default_output";
      case WfRecorder =>
        WfSources(c);
      case Ffmpeg =>
        FfmpegSources(c);
    }
  }
}
