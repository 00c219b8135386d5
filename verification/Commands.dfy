/** The screen recorder that a configuration calls for: its command line, and the note about its sound. */
module Commands {
  import opened Options
  import opened Digits
  import opened ArgVector
  import Devices

  type int32 = x: int | -0x8000_0000 <= x < 0x8000_0000

  datatype Backend = NoRecorder | Gsr | WfRecorder | Ffmpeg

  datatype Capture = Capture(
    replay: bool, replaySeconds: int32, quality: int32, codec: int32, mkv: bool,
    mic: Option<string>, desktop: Option<string>, out: Option<string>,
    wayland: bool, display: Option<string>, width: int32, height: int32,
    hasGsr: bool, hasWf: bool, hasFfmpeg: bool, ffmpegPulse: bool,
    audioFormat: Option<string>, videoInput: Option<seq<string>>)

  /** What the note says is in the sound. */
  datatype Note =
    | Empty
    | Merged(mic: string)        // desktop and microphone in one track, by gpu-screen-recorder
    | DesktopOnly                // the microphone is disabled
    | MicLeftOut(mic: string)    // wf-recorder records one source only
    | Mixed(mic: string)         // desktop and microphone in one track, by ffmpeg
    | MicOnly(mic: string)
    | Silent                     // ffmpeg cannot open the audio server
    | NoAudio

  /** The note says that the microphone is recorded. */
  predicate SaysMic(note: Note) { note.Merged? || note.Mixed? || note.MicOnly? }

  /** The note says that the desktop is recorded. */
  predicate SaysDesktop(note: Note) { note.Merged? || note.DesktopOnly? || note.MicLeftOut? || note.Mixed? }

  predicate Given(s: Option<string>) { s.Some? && s.value != "" }

  /** A number as `%d` prints it. */
  function Decimal(n: int): string {
    if n < 0 then "-" + Reversed(IntText(-n)) else Reversed(IntText(n))
  }

  function Quality(c: Capture): nat { if 0 <= c.quality <= 2 then c.quality else 1 }
  function Codec(c: Capture): nat { if 0 <= c.codec <= 2 then c.codec else 0 }

  function Pick(i: nat, a: string, b: string, c: string): string { if i == 0 then a else if i == 1 then b else c }

  // --------------------------------------------------------------- the three commands --

  function GsrAudio(c: Capture): string {
    if Given(c.mic) then "default_output|" + c.mic.value else "default_output"
  }

  function GsrCapture(c: Capture): seq<string> {
    ["gpu-screen-recorder", "-w", if c.wayland then "portal" else "screen", "-f", "60"]
  }

  function GsrSound(c: Capture): seq<string> {
    ["-s", Pick(Quality(c), "1280x720", "1920x1080", "3840x2160"), "-a", GsrAudio(c)]
  }

  function GsrReplay(c: Capture): seq<string> { if c.replay then ["-r", Decimal(c.replaySeconds)] else [] }

  function GsrCoding(c: Capture): seq<string> {
    ["-k", Pick(Codec(c), "h264", "hevc", "av1"), "-q", Pick(Quality(c), "medium", "high", "very_high")]
  }

  function GsrContainer(c: Capture): seq<string> { if c.replay then ["-c", if c.mkv then "mkv" else "mp4"] else [] }

  function GsrArgs(c: Capture): seq<string>
    requires c.out.Some?
  {
    GsrCapture(c) + GsrSound(c) + GsrReplay(c) + GsrCoding(c) + GsrContainer(c) + ["-o", c.out.value]
  }

  function WfArgs(c: Capture): seq<string>
    requires c.out.Some? && c.desktop.Some?
  {
    ["wf-recorder", "--audio=" + c.desktop.value, "-f", c.out.value]
  }

  predicate AudioOk(c: Capture) { c.ffmpegPulse || c.audioFormat.Some? }

  function AudioInputs(c: Capture): seq<string> {
    (if AudioOk(c) && Given(c.desktop) then [c.desktop.value] else [])
    + (if AudioOk(c) && Given(c.mic) then [c.mic.value] else [])
  }

  function VideoArgs(c: Capture): seq<string> {
    if c.videoInput.Some? then c.videoInput.value
    else ["-f", "x11grab", "-r", "30", "-s", Decimal(c.width) + "x" + Decimal(c.height),
          "-i", if c.display.Some? then c.display.value else ":0"]
  }

  function Format(c: Capture): string { if c.audioFormat.Some? then c.audioFormat.value else "pulse" }

  function InputArgs(c: Capture, input: string): seq<string> {
    ["-thread_queue_size", "1024", "-f", Format(c), "-i", input]
  }

  function AllInputArgs(c: Capture, inputs: seq<string>): seq<string> {
    if inputs == [] then [] else AllInputArgs(c, inputs[..|inputs| - 1]) + InputArgs(c, inputs[|inputs| - 1])
  }

  const MIX := "[1:a][2:a]" + "amix=inputs=2:" + "duration=longest:" + "normalize=0[a]"

  function MapArgs(inputs: nat): seq<string> {
    if inputs == 2 then ["-filter_complex", MIX, "-map", "0:v", "-map", "[a]"]
    else if inputs == 1 then ["-map", "0:v", "-map", "1:a"]
    else ["-map", "0:v"]
  }

  function EncodeArgs(c: Capture): seq<string> {
    ["-vf", Pick(Quality(c), "scale=1280:-2", "scale=1920:-2", "scale=3840:-2"),
     "-c:v", Pick(Codec(c), "libx264", "libx265", "libsvtav1"),
     "-preset", if Codec(c) == 2 then "10" else "veryfast",
     "-crf", Pick(Quality(c), "28", "24", "22")]
  }

  function AudioArgs(inputs: nat): seq<string> { if inputs > 0 then ["-c:a", "aac"] else [] }

  function FfmpegArgs(c: Capture): seq<string>
    requires c.out.Some?
  {
    var inputs := AudioInputs(c);
    ["ffmpeg", "-y", "-nostdin"] + VideoArgs(c) + AllInputArgs(c, inputs)
    + MapArgs(|inputs|) + EncodeArgs(c) + AudioArgs(|inputs|) + [c.out.value]
  }

  function FfmpegNote(c: Capture): Note {
    var n := |AudioInputs(c)|;
    if !AudioOk(c) then Silent
    else if n == 2 then Mixed(c.mic.value)
    else if Given(c.mic) then MicOnly(c.mic.value)
    else if n == 1 then DesktopOnly
    else NoAudio
  }

  // --------------------------------------------------------------------- the builder --

  /** Which recorder is used for `c` if its command fits, with its arguments and the note. */
  datatype Choice = Choice(backend: Backend, args: seq<string>, note: Note)

  function Chosen(c: Capture): Choice {
    if !Given(c.out) then Choice(NoRecorder, [], Empty)
    else if c.hasGsr then
      if |GsrAudio(c)| >= Devices.NAME_LEN + 32 && Given(c.mic) then Choice(NoRecorder, [], Empty)
      else Choice(Gsr, GsrArgs(c), if Given(c.mic) then Merged(c.mic.value) else DesktopOnly)
    else if c.wayland && c.hasWf && Given(c.desktop) then
      if |"--audio=" + c.desktop.value| >= Devices.NAME_LEN + 16 then Choice(NoRecorder, [], Empty)
      else Choice(WfRecorder, WfArgs(c), if Given(c.mic) then MicLeftOut(c.mic.value) else DesktopOnly)
    else if c.hasFfmpeg then Choice(Ffmpeg, FfmpegArgs(c), FfmpegNote(c))
    else Choice(NoRecorder, [], Empty)
  }

  /** All texts are C strings. */
  predicate Texts(c: Capture) {
    && (c.mic.Some? ==> NoNul(c.mic.value)) && (c.desktop.Some? ==> NoNul(c.desktop.value))
    && (c.out.Some? ==> NoNul(c.out.value)) && (c.display.Some? ==> NoNul(c.display.value))
    && (c.audioFormat.Some? ==> NoNul(c.audioFormat.value))
    && (c.videoInput.Some? ==> AllNoNul(c.videoInput.value))
  }

  lemma DecimalNoNul(n: int)
    ensures NoNul(Decimal(n))
  {
    ReversedDigits(IntText(if n < 0 then -n else n));
  }

  lemma NoNulAdd(x: string, y: string)
    requires NoNul(x) && NoNul(y)
    ensures NoNul(x + y)
  {}

  lemma GsrNoNul(c: Capture)
    requires Texts(c)
    ensures AllNoNul(GsrCapture(c)) && AllNoNul(GsrReplay(c)) && AllNoNul(GsrCoding(c)) && AllNoNul(GsrContainer(c))
    ensures AllNoNul(GsrSound(c)) && (c.out.Some? ==> AllNoNul(["-o", c.out.value]))
  {
    DecimalNoNul(c.replaySeconds);
    hide Decimal;
  }

  method BuildGsr(a: Argv, c: Capture) returns (backend: Backend, note: Note)
    requires a.Valid() && a.requested == [] && Texts(c) && c.out.Some?
    modifies a, a.v, a.arena
    ensures a.Valid() && a.requested == GsrArgs(c)
    ensures backend == (if a.overflow then NoRecorder else Gsr)
    ensures note == if Given(c.mic) then Merged(c.mic.value) else DesktopOnly
  {
    GsrNoNul(c);
    hide Argv.Valid, GsrCapture, GsrSound, GsrCoding, Texts, AllNoNul;
    note := if Given(c.mic) then Merged(c.mic.value) else DesktopOnly;
    a.ArgAll(GsrCapture(c));
    assert a.requested == GsrCapture(c);
    a.ArgAll(GsrSound(c));
    if c.replay {
      a.ArgAll(["-r", Decimal(c.replaySeconds)]);
    }
    assert a.requested == GsrCapture(c) + GsrSound(c) + GsrReplay(c);
    a.ArgAll(GsrCoding(c));
    if c.replay {
      a.ArgAll(["-c", if c.mkv then "mkv" else "mp4"]);
    }
    assert a.requested == GsrCapture(c) + GsrSound(c) + GsrReplay(c) + GsrCoding(c) + GsrContainer(c);
    a.ArgAll(["-o", c.out.value]);
    backend := if a.overflow then NoRecorder else Gsr;
  }

  lemma VideoNoNul(c: Capture)
    requires Texts(c)
    ensures AllNoNul(VideoArgs(c))
  {
    DecimalNoNul(c.width);
    DecimalNoNul(c.height);
    hide Decimal;
  }

  lemma MixNoNul()
    ensures NoNul(MIX)
  {
    NoNulAdd("[1:a][2:a]", "amix=inputs=2:");
    NoNulAdd("[1:a][2:a]" + "amix=inputs=2:", "duration=longest:");
    NoNulAdd("[1:a][2:a]" + "amix=inputs=2:" + "duration=longest:", "normalize=0[a]");
  }

  lemma InputNoNul(c: Capture, input: string)
    requires Texts(c) && NoNul(input)
    ensures AllNoNul(InputArgs(c, input))
  {}

  lemma FfmpegNoNul(c: Capture, n: nat)
    ensures AllNoNul(["ffmpeg", "-y", "-nostdin"])
    ensures AllNoNul(MapArgs(n)) && AllNoNul(EncodeArgs(c)) && AllNoNul(AudioArgs(n))
  {
    hide EncodeArgs, MapArgs;
    MixNoNul();
    MapNoNul(n);
    EncodeNoNul(c);
  }

  lemma MapNoNul(n: nat)
    requires NoNul(MIX)
    ensures AllNoNul(MapArgs(n))
  {}

  lemma EncodeNoNul(c: Capture)
    ensures AllNoNul(EncodeArgs(c))
  {}

  method GatherInputs(c: Capture) returns (inputs: seq<string>)
    requires Texts(c)
    ensures inputs == AudioInputs(c) && AllNoNul(inputs)
  {
    inputs := [];
    if AudioOk(c) && Given(c.desktop) {
      inputs := inputs + [c.desktop.value];
    }
    if AudioOk(c) && Given(c.mic) {
      inputs := inputs + [c.mic.value];
    }
  }

  method BuildFfmpeg(a: Argv, c: Capture) returns (backend: Backend, note: Note)
    requires a.Valid() && a.requested == [] && Texts(c) && c.out.Some?
    modifies a, a.v, a.arena
    ensures a.Valid() && a.requested == FfmpegArgs(c)
    ensures backend == (if a.overflow then NoRecorder else Ffmpeg)
    ensures note == FfmpegNote(c)
  {
    assert NoNul(c.out.value);
    VideoNoNul(c);
    hide Argv.Valid, Texts, AllNoNul, NoNul, VideoArgs, InputArgs, MapArgs, EncodeArgs, AudioArgs, AudioInputs,
         FfmpegNote;
    var inputs := GatherInputs(c);
    FfmpegNoNul(c, |inputs|);
    a.ArgAll(["ffmpeg", "-y", "-nostdin"]);
    assert a.requested == ["ffmpeg", "-y", "-nostdin"];
    a.ArgAll(VideoArgs(c));
    AddInputs(a, c, inputs);
    a.ArgAll(MapArgs(|inputs|));
    a.ArgAll(EncodeArgs(c));
    a.ArgAll(AudioArgs(|inputs|));
    a.Arg(c.out.value);
    note := FfmpegNote(c);
    backend := if a.overflow then NoRecorder else Ffmpeg;
  }

  method AddInputs(a: Argv, c: Capture, inputs: seq<string>)
    requires a.Valid() && Texts(c) && AllNoNul(inputs)
    modifies a, a.v, a.arena
    ensures a.Valid() && a.requested == old(a.requested) + AllInputArgs(c, inputs)
  {
    hide Argv.Valid, Texts, InputArgs;
    for i := 0 to |inputs|
      invariant a.Valid() && a.requested == old(a.requested) + AllInputArgs(c, inputs[..i])
    {
      InputNoNul(c, inputs[i]);
      a.ArgAll(InputArgs(c, inputs[i]));
      assert inputs[..i + 1][..i] == inputs[..i];
    }
    assert inputs[..|inputs|] == inputs;
  }

  method BuildWf(a: Argv, c: Capture) returns (backend: Backend, note: Note)
    requires a.Valid() && a.requested == [] && Texts(c) && c.out.Some? && c.desktop.Some?
    modifies a, a.v, a.arena
    ensures a.Valid() && a.requested == WfArgs(c)
    ensures backend == (if a.overflow then NoRecorder else WfRecorder)
    ensures note == if Given(c.mic) then MicLeftOut(c.mic.value) else DesktopOnly
  {
    hide Argv.Valid;
    note := if Given(c.mic) then MicLeftOut(c.mic.value) else DesktopOnly;
    NoNulAdd("--audio=", c.desktop.value);
    a.ArgAll(WfArgs(c));
    backend := if a.overflow then NoRecorder else WfRecorder;
  }

  /** The recorder for a configuration. An overflowing command is never returned: with a recorder
      comes exactly the command that was chosen, as the child process will find it. */
  method BuildCapture(a: Argv, c: Capture) returns (backend: Backend, note: Note)
    requires a.v.Length == SLOTS && a.arena.Length == ARENA && Texts(c)
    modifies a, a.v, a.arena
    ensures a.Valid()
    ensures var choice := Chosen(c);
            && backend == (if TooMuch(choice.args) then NoRecorder else choice.backend)
            && (backend != NoRecorder ==> note == choice.note && a.Decoded() == choice.args)
  {
    hide Argv.Valid, Argv.Decoded, GsrAudio, GsrArgs, WfArgs, FfmpegArgs, FfmpegNote, TooMuch, Texts;
    a.Init();
    backend, note := NoRecorder, Empty;
    if Given(c.out) {
      if c.hasGsr {
        if !(Given(c.mic) && |GsrAudio(c)| >= Devices.NAME_LEN + 32) {
          backend, note := BuildGsr(a, c);
        }
      } else if c.wayland && c.hasWf && Given(c.desktop) {
        if |"--audio=" + c.desktop.value| < Devices.NAME_LEN + 16 {
          backend, note := BuildWf(a, c);
        }
      } else if c.hasFfmpeg {
        backend, note := BuildFfmpeg(a, c);
      }
    }
    a.DecodedIsRequested();
  }
}
