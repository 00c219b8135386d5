/** The three recorders of the overlay: screen, instant replay and voice, each a child process that
    the overlay starts, polls and stops, with the operating system as an adversary. */
module Recorders {

  // --------------------------------------------------------------- the operating system --

  /** A child that has not been found finished. `Ended` children wait to be collected; of a
      `Vanished` one the system knows nothing any more. */
  datatype State = Running | Ended | Vanished
  datatype Child = Child(id: nat, state: State)

  datatype Waited = StillRunning | Interrupted | Collected | NoChild

  /** The children of this process. Process numbers come back once they are free, so every start
      has an `id` of its own; the first one is 0. */
  ghost predicate AliveIn(children: map<int, Child>, id: nat) { exists p :: p in children && children[p].id == id }

  lemma SameIds(was: map<int, Child>, now: map<int, Child>)
    requires was.Keys == now.Keys && forall p :: p in was ==> was[p].id == now[p].id
    ensures forall id: nat :: AliveIn(now, id) <==> AliveIn(was, id)
  {
    forall id: nat ensures AliveIn(now, id) <==> AliveIn(was, id) {
      assert forall p :: p in was ==> (was[p].id == id <==> now[p].id == id);
    }
  }

  lemma OneMore(was: map<int, Child>, pid: int, child: Child)
    requires pid !in was
    ensures forall id: nat :: AliveIn(was[pid := child], id) <==> id == child.id || AliveIn(was, id)
  {
    var now := was[pid := child];
    assert now[pid].id == child.id;
    forall id: nat | AliveIn(was, id) ensures AliveIn(now, id) {
      var p :| p in was && was[p].id == id;
      assert p in now && now[p].id == id;
    }
  }

  lemma OneLess(was: map<int, Child>, pid: int)
    requires pid in was && forall p, q :: p in was && q in was && was[p].id == was[q].id ==> p == q
    ensures forall id: nat :: AliveIn(was - {pid}, id) <==> AliveIn(was, id) && id != was[pid].id
    ensures AliveIn(was, was[pid].id)
  {
    var now := was - {pid};
    forall id: nat | AliveIn(was, id) && id != was[pid].id ensures AliveIn(now, id) {
      var p :| p in was && was[p].id == id;
      assert p in now && now[p].id == id;
    }
  }

  class System {
    var children: map<int, Child>
    var started: nat                    // how many children were ever started
    ghost var foundByPoll: set<nat>     // found finished by the poll of the tick
    ghost var foundByStop: set<nat>     // found finished when they were stopped
    ghost var forks: seq<int>           // what every attempt to start a child came to

    constructor ()
      ensures children == map[] && started == 0 && foundByPoll == {} && foundByStop == {} && forks == [] && Valid()
    {
      children, started, foundByPoll, foundByStop, forks := map[], 0, {}, {}, [];
    }

    /** Every child is accounted for exactly once. */
    ghost predicate Valid()
      reads this
    {
      && 0 !in children && (forall p :: p in children ==> p > 0)
      && (forall p, q :: p in children && q in children && children[p].id == children[q].id ==> p == q)
      && (forall id: nat :: id < started <==> (id in foundByPoll || id in foundByStop || AliveIn(children, id)))
      && foundByPoll !! foundByStop
      && (forall p :: p in children ==> children[p].id !in foundByPoll && children[p].id !in foundByStop)
    }

    /** A new child, or a failure. */
    method Fork() returns (pid: int)
      requires Valid()
      modifies this`children, this`started, this`forks
      ensures Valid()
      ensures forks == old(forks) + [pid]
      ensures pid == -1 ==> children == old(children) && started == old(started)
      ensures pid != -1 ==> pid > 0 && pid !in old(children) && started == old(started) + 1
                            && children == old(children)[pid := Child(old(started), Running)]
    {
      var ok: bool := *;
      pid := *;
      if !ok || pid <= 0 || pid in children {
        pid := -1;
      } else {
        children := children[pid := Child(started, Running)];
        started := started + 1;
        OneMore(old(children), pid, Child(old(started), Running));
      }
      forks := forks + [pid];
    }

    /** Time passes: children may end or vanish, none comes back. */
    method Elapse()
      requires Valid()
      modifies this`children
      ensures Valid() && children.Keys == old(children.Keys)
      ensures forall p :: p in children ==> children[p].id == old(children)[p].id
    {
      var pid, next: State := *, *;
      if pid in children && (children[pid].state == Running || next == Vanished) {
        children := children[pid := Child(children[pid].id, next)];
      }
      SameIds(old(children), children);
    }

    /** `waitpid` without blocking, and who asks. A child that is over is forgotten with that. */
    method WaitNoHang(pid: int, ghost poll: bool) returns (r: Waited)
      requires Valid()
      modifies this`children, this`foundByPoll, this`foundByStop
      ensures Valid()
      ensures r.StillRunning? || r.Interrupted? <==> pid in old(children) && old(children)[pid].state == Running
      ensures r.Collected? <==> pid in old(children) && old(children)[pid].state == Ended
      ensures r.StillRunning? || r.Interrupted? ==>
                children == old(children) && foundByPoll == old(foundByPoll) && foundByStop == old(foundByStop)
      ensures pid !in old(children) ==> r == NoChild
      ensures r.Collected? || r.NoChild? ==> Found(old(children), old(foundByPoll), old(foundByStop), pid, poll)
      ensures |foundByPoll| == |old(foundByPoll)| + if children == old(children) || !poll then 0 else 1
    {
      r := NoChild;
      if pid in children {
        var interrupted: bool := *;
        if children[pid].state == Running {
          return if interrupted then Interrupted else StillRunning;
        }
        r := if children[pid].state == Ended then Collected else NoChild;
        Forget(pid, poll);
      }
    }

    /** After the last news of a child: it is gone, and counted where it was found. */
    ghost predicate Found(children0: map<int, Child>, byPoll0: set<nat>, byStop0: set<nat>, pid: int, poll: bool)
      reads this
    {
      && children == children0 - {pid}
      && foundByPoll == byPoll0 + (if poll && pid in children0 then {children0[pid].id} else {})
      && foundByStop == byStop0 + (if !poll && pid in children0 then {children0[pid].id} else {})
    }

    method Forget(pid: int, ghost poll: bool)
      requires Valid() && pid in children
      modifies this`children, this`foundByPoll, this`foundByStop
      ensures Valid() && Found(old(children), old(foundByPoll), old(foundByStop), pid, poll)
    {
      ghost var id := children[pid].id;
      children := children - {pid};
      if poll {
        foundByPoll := foundByPoll + {id};
      } else {
        foundByStop := foundByStop + {id};
      }
      OneLess(old(children), pid);
    }

    /** SIGKILL, and a wait that ends with the child. */
    method KillAndWait(pid: int)
      requires Valid()
      modifies this`children, this`foundByPoll, this`foundByStop
      ensures Valid() && Found(old(children), old(foundByPoll), old(foundByStop), pid, false)
    {
      if pid in children {
        Forget(pid, false);
      }
    }
  }

  // --------------------------------------------------------------------- the overlay --

  ghost function HeldOf(a: nat, b: nat, c: nat): set<int> { {a, b, c} - {0} }

  /** What a free slot gains, a slot that is freed loses. */
  lemma SlotChange(pid: nat, b: nat, c: nat)
    requires pid > 0 && pid != b && pid != c
    ensures HeldOf(pid, b, c) == HeldOf(0, b, c) + {pid} && HeldOf(0, b, c) == HeldOf(pid, b, c) - {pid}
    ensures pid !in HeldOf(0, b, c)
  {}

  lemma Slots(a: nat, b: nat, c: nat)
    ensures HeldOf(a, b, c) == HeldOf(b, a, c) == HeldOf(c, a, b)
    ensures (a > 0 ==> a in HeldOf(a, b, c)) && (b > 0 ==> b in HeldOf(a, b, c)) && (c > 0 ==> c in HeldOf(a, b, c))
    ensures forall p :: p in HeldOf(a, b, c) ==> p != 0 && (p == a || p == b || p == c)
    ensures a == b == c == 0 ==> HeldOf(a, b, c) == {}
  {}

  /** What the slots hold when that of the voice recorder, `pid`, is freed. */
  lemma VoiceFreed(a: nat, b: nat, pid: nat)
    requires pid > 0 && pid != a && pid != b
    ensures pid in HeldOf(a, b, pid) && HeldOf(a, b, 0) == HeldOf(a, b, pid) - {pid}
  {}

  datatype Recorder = Screen | Replay | Voice

  /** An attempt to start a recorder: whether there was a command for it, and the process, or 0 for none. */
  datatype Launch = Launch(who: Recorder, built: bool, pid: nat)

  /** What such an attempt asks of the operating system. */
  function Tried(built: bool, pid: nat): seq<int> { if !built then [] else if pid > 0 then [pid as int] else [-1] }

  class Overlay {
    const os: System
    var recordPid: nat
    var replayPid: nat
    var voicePid: nat
    var recording: bool
    var instantReplay: bool
    var voiceRecording: bool
    var captureFailures: nat
    ghost var launches: seq<Launch>

    /** The processes in the three slots. */
    ghost function Held(): set<int>
      reads this
    {
      HeldOf(recordPid, replayPid, voicePid)
    }

    /** No recorder is lost: the children that have not been found finished are exactly the ones in the
        slots, each in one slot, and the failures are the ones the poll has found. */
    ghost predicate Valid()
      reads this, os
    {
      && os.Valid() && os.children.Keys == Held()
      && (recordPid > 0 ==> recordPid != replayPid && recordPid != voicePid)
      && (replayPid > 0 ==> replayPid != voicePid)
      && captureFailures == |os.foundByPoll|
    }

    /** Each flag is set exactly when its recorder is held. */
    ghost predicate FlagsRight()
      reads this
    {
      (recording <==> recordPid > 0) && (instantReplay <==> replayPid > 0) && (voiceRecording <==> voicePid > 0)
    }

    /** The child in a slot does not run any more. */
    ghost predicate Finished(pid: nat)
      reads this, os
    {
      pid in os.children && os.children[pid].state != Running
    }

    constructor ()
      ensures Valid() && FlagsRight() && os.started == 0 && captureFailures == 0 && launches == [] && fresh(os)
    {
      os := new System();
      recordPid, replayPid, voicePid := 0, 0, 0;
      recording, instantReplay, voiceRecording := false, false, false;
      captureFailures, launches := 0, [];
    }

    /** If there is a command, it is started: the new process, or 0 when nothing was started. */
    method LaunchCapture(who: Recorder, built: bool) returns (pid: nat)
      requires os.Valid()
      modifies os`children, os`started, os`forks, this`launches
      ensures os.Valid() && launches == old(launches) + [Launch(who, built, pid)]
      ensures os.forks == old(os.forks) + Tried(built, pid) && (!built ==> pid == 0)
      ensures pid == 0 ==> os.children == old(os.children) && os.started == old(os.started)
      ensures pid > 0 ==>
              pid !in old(os.children) && os.children == old(os.children)[pid := Child(old(os.started), Running)]
                          && os.started == old(os.started) + 1
    {
      hide System.Valid, HeldOf;
      pid := 0;
      if built {
        var forked := os.Fork();
        pid := if forked < 0 then 0 else forked;
      }
      launches := launches + [Launch(who, built, pid)];
    }

    method StartManualRecording(built: bool)
      requires Valid()
      modifies `recordPid, `recording, `launches, os`children, os`started, os`forks
      ensures Valid()
      ensures old(recordPid) > 0 ==> recordPid == old(recordPid) && recording == old(recording)
                                     && launches == old(launches) && os.forks == old(os.forks)
      ensures old(recordPid) == 0 ==> recording == (old(recording) && recordPid > 0)
                                      && launches == old(launches) + [Launch(Screen, built, recordPid)]
                                      && os.forks == old(os.forks) + Tried(built, recordPid)
    {
      hide System.Valid, HeldOf;
      if recordPid > 0 {
        return;
      }
      Slots(recordPid, replayPid, voicePid);
      recordPid := LaunchCapture(Screen, built);
      if recordPid == 0 {
        recording := false;
      } else {
        SlotChange(recordPid, replayPid, voicePid);
      }
    }

    method StartReplayBuffer(built: bool)
      requires Valid()
      modifies `replayPid, `instantReplay, `launches, os`children, os`started, os`forks
      ensures Valid()
      ensures old(replayPid) > 0 ==> replayPid == old(replayPid) && instantReplay == old(instantReplay)
                                     && launches == old(launches) && os.forks == old(os.forks)
      ensures old(replayPid) == 0 ==> instantReplay == (old(instantReplay) && replayPid > 0)
                                      && launches == old(launches) + [Launch(Replay, built, replayPid)]
                                      && os.forks == old(os.forks) + Tried(built, replayPid)
    {
      hide System.Valid, HeldOf;
      if replayPid > 0 {
        return;
      }
      Slots(recordPid, replayPid, voicePid);
      replayPid := LaunchCapture(Replay, built);
      if replayPid == 0 {
        instantReplay := false;
      } else {
        SlotChange(replayPid, recordPid, voicePid);
        Slots(recordPid, replayPid, voicePid);
        Slots(recordPid, 0, voicePid);
      }
    }

    method StartVoiceRecording(micSelected: bool, built: bool)
      requires Valid()
      modifies `voicePid, `voiceRecording, `launches, os`children, os`started, os`forks
      ensures Valid()
      ensures old(voicePid) > 0 || !micSelected ==>
                voicePid == old(voicePid) && voiceRecording == old(voiceRecording)
                && launches == old(launches) && os.forks == old(os.forks)
      ensures old(voicePid) == 0 && micSelected ==>
                voiceRecording == (old(voiceRecording) || voicePid > 0)
                && launches == old(launches) + [Launch(Voice, built, voicePid)]
                && os.forks == old(os.forks) + Tried(built, voicePid)
    {
      hide System.Valid, HeldOf;
      if voicePid > 0 || !micSelected {
        return;
      }
      Slots(recordPid, replayPid, voicePid);
      voicePid := LaunchCapture(Voice, built);
      if voicePid > 0 {
        voiceRecording := true;
        SlotChange(voicePid, recordPid, replayPid);
        Slots(recordPid, replayPid, voicePid);
        Slots(recordPid, replayPid, 0);
      }
    }

    /** SIGINT, up to three seconds of patience, then SIGKILL: in the end the process is found finished. */
    method ReapEncoder(pid: nat)
      requires os.Valid() && pid in os.children
      modifies os`children, os`foundByPoll, os`foundByStop
      ensures os.Valid() && os.children.Keys == old(os.children.Keys) - {pid}
      ensures os.foundByPoll == old(os.foundByPoll)
    {
      hide System.Valid, HeldOf;
      for i := 0 to 300
        invariant os.Valid() && os.foundByPoll == old(os.foundByPoll)
        invariant os.children.Keys == old(os.children.Keys) || os.children.Keys == old(os.children.Keys) - {pid}
      {
        os.Elapse();
        var r := os.WaitNoHang(pid, false);
        if r == Collected {
          return;
        }
      }
      os.KillAndWait(pid);
    }

    method StopManualRecording()
      requires Valid()
      modifies `recordPid, os`children, os`foundByPoll, os`foundByStop
      ensures Valid() && recordPid == 0 && os.foundByPoll == old(os.foundByPoll)
    {
      hide System.Valid, HeldOf;
      if recordPid > 0 {
        Slots(recordPid, replayPid, voicePid);
        SlotChange(recordPid, replayPid, voicePid);
        ReapEncoder(recordPid);
        recordPid := 0;
      }
    }

    method StopReplayBuffer()
      requires Valid()
      modifies `replayPid, os`children, os`foundByPoll, os`foundByStop
      ensures Valid() && replayPid == 0 && os.foundByPoll == old(os.foundByPoll)
    {
      hide System.Valid, HeldOf;
      if replayPid > 0 {
        Slots(recordPid, replayPid, voicePid);
        SlotChange(replayPid, recordPid, voicePid);
        ReapEncoder(replayPid);
        replayPid := 0;
        Slots(recordPid, replayPid, voicePid);
      }
    }

    method StopVoiceRecording()
      requires Valid()
      modifies `voicePid, `voiceRecording, os`children, os`foundByPoll, os`foundByStop
      ensures Valid() && voicePid == 0 && !voiceRecording && os.foundByPoll == old(os.foundByPoll)
    {
      hide System.Valid, HeldOf;
      if voicePid == 0 {
        voiceRecording := false;
        return;
      }
      VoiceFreed(recordPid, replayPid, voicePid);
      ReapEncoder(voicePid);
      voicePid := 0;
      voiceRecording := false;
    }

    /** A running voice recorder is stopped; otherwise, with a microphone selected, exactly one is started. */
    method ToggleVoiceRecording(micSelected: bool, built: bool)
      requires Valid() && FlagsRight()
      modifies `voicePid, `voiceRecording, `launches, os
      ensures Valid() && FlagsRight()
      ensures old(voiceRecording) ==> voicePid == 0 && launches == old(launches) && os.forks == old(os.forks)
      ensures !old(voiceRecording) && micSelected ==>
                launches == old(launches) + [Launch(Voice, built, voicePid)]
                && os.forks == old(os.forks) + Tried(built, voicePid)
      ensures !old(voiceRecording) && !micSelected ==>
                voicePid == 0 && launches == old(launches) && os.forks == old(os.forks)
    {
      hide System.Valid, HeldOf;
      if voiceRecording {
        StopVoiceRecording();
      } else {
        StartVoiceRecording(micSelected, built);
      }
    }

    // ------------------------------------------------------------------- the tick --

    /** Is the recorder in this slot gone? Then it has failed. */
    method ReapIfDead(pid: nat) returns (gone: bool)
      requires Valid() && (pid > 0 ==> pid in os.children)
      modifies `captureFailures, os`children, os`foundByPoll, os`foundByStop
      ensures os.Valid() && os.foundByStop == old(os.foundByStop) && gone == old(Finished(pid))
      ensures !gone ==> os.children == old(os.children) && os.foundByPoll == old(os.foundByPoll)
      ensures gone ==> pid > 0 && os.children == old(os.children) - {pid}
      ensures captureFailures == |os.foundByPoll| == old(captureFailures) + if gone then 1 else 0
    {
      hide HeldOf;
      gone := false;
      if pid > 0 {
        var r := os.WaitNoHang(pid, true);
        if r == Collected || r == NoChild {
          gone := true;
          captureFailures := captureFailures + 1;
        }
      }
    }

    /** A screen recorder that does not run any more is found: its slot is free, its flag clear, and one failure
        counted. One that runs stays. */
    method PollRecording()
      requires Valid() && FlagsRight()
      modifies `recordPid, `recording, `captureFailures, os`children, os`foundByPoll, os`foundByStop
      ensures Valid() && FlagsRight() && os.foundByStop == old(os.foundByStop)
      ensures recordPid == if old(Finished(recordPid)) then 0 else old(recordPid)
      ensures captureFailures == old(captureFailures) + if old(Finished(recordPid)) then 1 else 0
      ensures forall p :: p in os.children ==> p in old(os.children) && os.children[p] == old(os.children)[p]
    {
      hide System.Valid, HeldOf;
      Slots(recordPid, replayPid, voicePid);
      var gone := ReapIfDead(recordPid);
      if gone {
        SlotChange(recordPid, replayPid, voicePid);
        recordPid, recording := 0, false;
        Slots(recordPid, replayPid, voicePid);
      }
    }

    method PollReplay()
      requires Valid() && FlagsRight()
      modifies `replayPid, `instantReplay, `captureFailures, os`children, os`foundByPoll, os`foundByStop
      ensures Valid() && FlagsRight() && os.foundByStop == old(os.foundByStop)
      ensures replayPid == if old(Finished(replayPid)) then 0 else old(replayPid)
      ensures captureFailures == old(captureFailures) + if old(Finished(replayPid)) then 1 else 0
      ensures forall p :: p in os.children ==> p in old(os.children) && os.children[p] == old(os.children)[p]
    {
      hide System.Valid, HeldOf;
      Slots(recordPid, replayPid, voicePid);
      var gone := ReapIfDead(replayPid);
      if gone {
        SlotChange(replayPid, recordPid, voicePid);
        replayPid, instantReplay := 0, false;
        Slots(recordPid, replayPid, voicePid);
      }
    }

    method PollVoice()
      requires Valid() && FlagsRight()
      modifies `voicePid, `voiceRecording, `captureFailures, os`children, os`foundByPoll, os`foundByStop
      ensures Valid() && FlagsRight() && os.foundByStop == old(os.foundByStop)
      ensures voicePid == if old(Finished(voicePid)) then 0 else old(voicePid)
      ensures captureFailures == old(captureFailures) + if old(Finished(voicePid)) then 1 else 0
      ensures forall p :: p in os.children ==> p in old(os.children) && os.children[p] == old(os.children)[p]
    {
      hide System.Valid, HeldOf;
      if voicePid > 0 { VoiceFreed(recordPid, replayPid, voicePid); }
      var gone := ReapIfDead(voicePid);
      if gone {
        voicePid, voiceRecording := 0, false;
      }
    }

    /** The poll of a tick: each recorder that does not run any more leaves its slot, its flag is cleared and it
        counts as one failure; each one that runs stays. */
    method Tick()
      requires Valid() && FlagsRight()
      modifies this, os
      ensures Valid() && FlagsRight() && os.foundByStop == old(os.foundByStop)
      ensures os.started == old(os.started) && os.forks == old(os.forks) && launches == old(launches)
      ensures recordPid == if old(Finished(recordPid)) then 0 else old(recordPid)
      ensures replayPid == if old(Finished(replayPid)) then 0 else old(replayPid)
      ensures voicePid == if old(Finished(voicePid)) then 0 else old(voicePid)
      ensures captureFailures == old(captureFailures) + (if old(Finished(recordPid)) then 1 else 0)
                + (if old(Finished(replayPid)) then 1 else 0) + (if old(Finished(voicePid)) then 1 else 0)
    {
      hide System.Valid;
      PollRecording();
      PollReplay();
      PollVoice();
    }

    // ------------------------------------------------------------------- the keys --

    /** On an idle replay buffer the key makes exactly one attempt to start it; a running one it stops. */
    method EnterInstantReplay(built: bool)
      requires Valid() && FlagsRight()
      modifies `replayPid, `instantReplay, `launches, os
      ensures Valid() && FlagsRight()
      ensures old(instantReplay) ==> replayPid == 0 && launches == old(launches) && os.forks == old(os.forks)
      ensures !old(instantReplay) ==> launches == old(launches) + [Launch(Replay, built, replayPid)]
                                      && os.forks == old(os.forks) + Tried(built, replayPid)
    {
      hide System.Valid, HeldOf;
      instantReplay := !instantReplay;
      if instantReplay {
        StartReplayBuffer(built);
      } else {
        StopReplayBuffer();
      }
    }

    /** The same for the screen recorder. */
    method EnterRecording(built: bool)
      requires Valid() && FlagsRight()
      modifies `recordPid, `recording, `launches, os
      ensures Valid() && FlagsRight()
      ensures old(recording) ==> recordPid == 0 && launches == old(launches) && os.forks == old(os.forks)
      ensures !old(recording) ==> launches == old(launches) + [Launch(Screen, built, recordPid)]
                                  && os.forks == old(os.forks) + Tried(built, recordPid)
    {
      hide System.Valid, HeldOf;
      recording := !recording;
      if recording {
        StartManualRecording(built);
      } else {
        StopManualRecording();
      }
    }

    /** A setting the replay buffer depends on has changed: a running one is stopped and started once more. */
    method EnterSetting(built: bool)
      requires Valid() && FlagsRight()
      modifies `replayPid, `instantReplay, `launches, os
      ensures Valid() && FlagsRight()
      ensures old(instantReplay) ==> launches == old(launches) + [Launch(Replay, built, replayPid)]
                                     && os.forks == old(os.forks) + Tried(built, replayPid)
      ensures !old(instantReplay) ==> replayPid == 0 && launches == old(launches) && os.children == old(os.children)
                                      && os.forks == old(os.forks)
    {
      hide System.Valid, HeldOf;
      if instantReplay {
        StopReplayBuffer();
        StartReplayBuffer(built);
      }
    }

    /** Shutting down stops all three recorders, but clears the flag of the voice recorder only. */
    method Cleanup()
      requires Valid()
      modifies `recordPid, `replayPid, `voicePid, `voiceRecording, os`children, os`foundByPoll, os`foundByStop
      ensures Valid() && Held() == {} && os.children == map[] && !voiceRecording
      ensures FlagsRight() <==> !old(recording) && !old(instantReplay)
    {
      hide System.Valid, HeldOf;
      StopVoiceRecording();
      StopManualRecording();
      if replayPid > 0 {
        StopReplayBuffer();
      }
      Slots(0, 0, 0);
      assert os.children.Keys == {};
    }

    // ------------------------------------------------------------------ whole runs --

    /** One event: what its key or tick promises happens to its own recorder, and the others stay in their slots. */
    method Handle(e: Event)
      requires Valid() && FlagsRight()
      modifies this, os
      ensures Valid() && FlagsRight()
      ensures launches == old(launches) + match e
                case InstantReplayKey(built) => if old(instantReplay) then [] else [Launch(Replay, built, replayPid)]
                case RecordingKey(built) => if old(recording) then [] else [Launch(Screen, built, recordPid)]
                case VoiceKey(micSelected, built) =>
                  if old(voiceRecording) || !micSelected then [] else [Launch(Voice, built, voicePid)]
                case SettingKey(built) => if old(instantReplay) then [Launch(Replay, built, replayPid)] else []
                case _ => []
      ensures e.RecordingKey? && old(recording) ==> recordPid == 0
      ensures e.InstantReplayKey? && old(instantReplay) ==> replayPid == 0
      ensures e.VoiceKey? && old(voiceRecording) ==> voicePid == 0
      ensures !e.RecordingKey? ==>
                recordPid == if e.TickEvent? && old(Finished(recordPid)) then 0 else old(recordPid)
      ensures !e.InstantReplayKey? && !e.SettingKey? ==>
                replayPid == if e.TickEvent? && old(Finished(replayPid)) then 0 else old(replayPid)
      ensures !e.VoiceKey? ==>
                voicePid == if e.TickEvent? && old(Finished(voicePid)) then 0 else old(voicePid)
    {
      hide System.Valid, HeldOf;
      match e
      case TickEvent => Tick();
      case InstantReplayKey(built) => EnterInstantReplay(built);
      case RecordingKey(built) => EnterRecording(built);
      case VoiceKey(micSelected, built) => ToggleVoiceRecording(micSelected, built);
      case SettingKey(built) => EnterSetting(built);
      case TimePasses => os.Elapse();
    }

    /** Over every run of ticks, keys, child exits and failed starts: at its end, and so at the end of each of
        its beginnings, no recorder is lost, every flag is set exactly when its recorder is held, and every
        child ever started is either held in a slot or has been found finished. */
    method Serve(events: seq<Event>)
      requires Valid() && FlagsRight()
      modifies this, os
      ensures Valid() && FlagsRight() && captureFailures == |os.foundByPoll|
      ensures forall id: nat :: id < os.started <==> id in os.foundByPoll || id in os.foundByStop || HeldId(id)
      ensures forall id: nat :: HeldId(id) ==> id !in os.foundByPoll && id !in os.foundByStop
    {
      hide HeldOf;
      for i := 0 to |events|
        invariant Valid() && FlagsRight()
      {
        Handle(events[i]);
      }
    }

    /** The child that was started as number `id` is in one of the slots. */
    ghost predicate HeldId(id: nat)
      reads this, os
    {
      exists p :: p in Held() && p in os.children && os.children[p].id == id
    }

    /** Such a run and the shutdown behind it: every child ever started has been found finished, and only a
        recorder whose flag was set leaves its flag set. */
    method Run(events: seq<Event>)
      requires Valid() && FlagsRight()
      modifies this, os
      ensures Valid() && Held() == {} && !voiceRecording
      ensures forall id: nat :: id < os.started <==> id in os.foundByPoll || id in os.foundByStop
      ensures captureFailures == |os.foundByPoll|
      ensures FlagsRight() <==> !recording && !instantReplay
    {
      hide HeldOf;
      Serve(events);
      Cleanup();
    }
  }

  /** What happens to the overlay from outside; a key finds a command for its recorder, or none. */
  datatype Event =
    | TickEvent
    | InstantReplayKey(built: bool)
    | RecordingKey(built: bool)
    | VoiceKey(micSelected: bool, built: bool)
    | SettingKey(built: bool)
    | TimePasses
}
