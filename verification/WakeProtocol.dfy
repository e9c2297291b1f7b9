/** Streams waiting for pieces: polls, seeks, pieces becoming had and completion steps interleave
    freely. The have bit is set in one step and waiting streams are woken in a later one. */
module WakeProtocol {
  import opened Lengths
  import opened Outcomes
  import opened Streaming
  import opened FlatStorage
  import PieceProtocol
  import LiveTorrent
  import PieceBits

  datatype State = State(
    have: set<nat>,
    completing: multiset<nat>,          // had pieces whose completion step is still to come
    streams: map<nat, StreamState>,
    parked: set<nat>)                   // streams whose last poll was pending, not woken since

  datatype Step =
    | Open(id: nat, stream: StreamState)
    | PollPending(id: nat)
    | PollReady(id: nat, advance: nat)
    | Seek(id: nat, position: nat)
    | SetHave(piece: nat)
    | Complete(piece: nat)
    | Drop(id: nat)
    | Pause

  ghost predicate Next(l: Lengths, s: State, step: Step, s': State) {
    match step
    case Open(id, stream) =>
      id !in s.streams && !stream.waker && s' == s.(streams := s.streams[id := stream])
    // The have bit is read and the waker registered under one lock.
    case PollPending(id) =>
      && id in s.streams
      && CurrentPiece(l, s.streams[id]).Some? && CurrentPiece(l, s.streams[id]).value !in s.have
      && s' == s.(streams := s.streams[id := s.streams[id].(waker := true)], parked := s.parked + {id})
    case PollReady(id, n) =>
      && id in s.streams
      && (n == 0 || (CurrentPiece(l, s.streams[id]).Some? && CurrentPiece(l, s.streams[id]).value in s.have))
      && s' == s.(streams := s.streams[id := s.streams[id].(position := s.streams[id].position + n)], parked := s.parked - {id})
    case Seek(id, position) =>
      && id in s.streams
      && s' == s.(streams := s.streams[id := s.streams[id].(position := position)], parked := s.parked - {id})
    case SetHave(p) =>
      s' == s.(have := s.have + {p}, completing := s.completing + multiset{p})
    case Complete(p) =>
      && p in s.completing
      && s' == s.(completing := s.completing - multiset{p}, streams := Woken(l, s.streams, p),
                  parked := s.parked - Waiting(l, s.streams, p))
    case Drop(id) =>
      s' == s.(streams := s.streams - {id}, parked := s.parked - {id})
    // Completion steps still to come find no chunk tracker and give up before waking.
    case Pause =>
      s' == s.(completing := multiset{})
  }

  /** A parked stream has its waker registered; and if its piece is had by now, the step that
      wakes it is still to come. */
  ghost predicate WillWake(l: Lengths, s: State, id: nat) {
    && id in s.streams && s.streams[id].waker && CurrentPiece(l, s.streams[id]).Some?
    && (CurrentPiece(l, s.streams[id]).value in s.have ==> CurrentPiece(l, s.streams[id]).value in s.completing)
  }

  ghost predicate NoLostWakeup(l: Lengths, s: State) {
    forall id :: id in s.parked ==> WillWake(l, s, id)
  }

  /** Parked on a piece that is had. */
  ghost predicate Overdue(l: Lengths, s: State, id: nat) {
    && id in s.parked && id in s.streams && CurrentPiece(l, s.streams[id]).Some?
    && CurrentPiece(l, s.streams[id]).value in s.have
  }

  lemma OrdinaryStepWakes(l: Lengths, s: State, step: Step, s': State, id: nat)
    requires NoLostWakeup(l, s) && Next(l, s, step, s') && !step.Pause? && !step.Complete? && id in s'.parked
    ensures WillWake(l, s', id)
  {
    assert id in s.parked ==> WillWake(l, s, id);
  }

  /** A step loses a wakeup if and only if it is a pause while a stream is parked on a had piece. */
  lemma WakeStep(l: Lengths, s: State, step: Step, s': State)
    requires NoLostWakeup(l, s) && Next(l, s, step, s')
    ensures NoLostWakeup(l, s') <==> !(step.Pause? && exists id :: Overdue(l, s, id))
  {
    match step
    case Pause =>
      if id :| Overdue(l, s, id) {
        assert id in s'.parked && !WillWake(l, s', id);
      }
      forall id | id in s'.parked && !Overdue(l, s, id) ensures WillWake(l, s', id) {
        assert WillWake(l, s, id);
      }
    case Complete(p) =>
      forall id | id in s'.parked ensures WillWake(l, s', id) {
        assert WillWake(l, s, id) && id !in Waiting(l, s.streams, p);
      }
    case _ =>
      forall id | id in s'.parked ensures WillWake(l, s', id) {
        OrdinaryStepWakes(l, s, step, s', id);
      }
  }

  ghost predicate Run(l: Lengths, states: seq<State>, steps: seq<Step>) {
    && |states| == |steps| + 1 && states[0].parked == {}
    && forall k :: 0 <= k < |steps| ==> Next(l, states[k], steps[k], states[k + 1])
  }

  /** While the torrent stays live no wakeup is lost: in every state of every run, a stream parked
      on a piece that is now had has its wake still to come. */
  lemma {:induction false} WakeupsSurvive(l: Lengths, states: seq<State>, steps: seq<Step>, n: nat)
    requires Run(l, states, steps) && n <= |steps|
    requires forall k :: 0 <= k < n ==> !steps[k].Pause?
    ensures NoLostWakeup(l, states[n])
  {
    if n > 0 {
      WakeupsSurvive(l, states, steps, n - 1);
      WakeStep(l, states[n - 1], steps[n - 1], states[n]);
    }
  }

  /** The wake that is to come does wake the stream. */
  lemma CompletionWakes(l: Lengths, s: State, p: nat, s': State, id: nat)
    requires NoLostWakeup(l, s) && Next(l, s, Complete(p), s')
    requires id in s.parked && CurrentPiece(l, s.streams[id]) == Some(p)
    ensures id !in s'.parked
  {
    assert WillWake(l, s, id);
  }

  /** A pause between setting the have bit and the completion step loses the wakeup, from any
      state in which a stream is parked. */
  lemma PauseCanLoseWakeup(l: Lengths, s: State, id: nat) returns (s1: State, s2: State)
    requires NoLostWakeup(l, s) && id in s.parked
    ensures var p := CurrentPiece(l, s.streams[id]).value;
            Next(l, s, SetHave(p), s1) && Next(l, s1, Pause, s2) && Overdue(l, s2, id) && s2.completing == multiset{}
  {
    assert WillWake(l, s, id);
    var p := CurrentPiece(l, s.streams[id]).value;
    s1 := s.(have := s.have + {p}, completing := s.completing + multiset{p});
    s2 := s1.(completing := multiset{});
  }

  /** Such a run, from the start: a stream is opened at the first byte and polled, its piece becomes
      had, and the pause comes before the completion step. */
  lemma LostWakeupReachable(l: Lengths) returns (states: seq<State>, steps: seq<Step>)
    ensures Run(l, states, steps) && states[0] == State({}, multiset{}, map[], {})
    ensures Overdue(l, states[|steps|], 0) && states[|steps|].completing == multiset{}
  {
    PieceOfByte(l, 0, 0);
    var stream := StreamState(1, 0, 0, false);
    var s0 := State({}, multiset{}, map[], {});
    var s1 := s0.(streams := map[0 := stream]);
    var s2 := s1.(streams := map[0 := stream.(waker := true)], parked := {0});
    assert s1.streams[0 := stream.(waker := true)] == s2.streams;
    var s3, s4 := PauseCanLoseWakeup(l, s2, 0);
    states, steps := [s0, s1, s2, s3, s4], [Open(0, stream), PollPending(0), SetHave(0), Pause];
    assert Next(l, states[0], steps[0], states[1]) && Next(l, states[1], steps[1], states[2]);
    assert Next(l, states[2], steps[2], states[3]) && Next(l, states[3], steps[3], states[4]);
  }

  // ---- the methods take these steps ----

  /** `s` has the have bits and the pending completions of the live torrent `t`. */
  ghost predicate Reflects(l: Lengths, t: PieceProtocol.State, s: State) {
    && PieceBits.Wf(l, t.bits) && s.completing == t.completing
    && forall p: nat :: p < TotalPieces(l) ==> (p in s.have <==> t.bits.have[p])
  }

  /** What a step of the live torrent is for the streams: a passed hash sets a have bit, a completion
      wakes, a pause drops completions, and no other step concerns them. */
  lemma TorrentStep(l: Lengths, lens: seq<nat>, t: PieceProtocol.State, step: PieceProtocol.Step, t': PieceProtocol.State, s: State)
    returns (s': State)
    requires PieceProtocol.Wellformed(l, lens, t) && PieceProtocol.Next(l, lens, t, step, t') && Reflects(l, t, s)
    ensures Reflects(l, t', s')
    ensures if step.HashPass? then Next(l, s, SetHave(step.piece), s')
            else if step.Complete? then Next(l, s, Complete(step.piece), s')
            else if step.Pause? then Next(l, s, Pause, s')
            else s' == s
  {
    HaveStep(l, lens, t, step, t');
    s' := Concerned(l, t, step, t', s);
  }

  lemma Concerned(l: Lengths, t: PieceProtocol.State, step: PieceProtocol.Step, t': PieceProtocol.State, s: State)
    returns (s': State)
    requires Concerns(l, t, step, t') && Reflects(l, t, s)
    ensures Reflects(l, t', s')
    ensures if step.HashPass? then Next(l, s, SetHave(step.piece), s')
            else if step.Complete? then Next(l, s, Complete(step.piece), s')
            else if step.Pause? then Next(l, s, Pause, s')
            else s' == s
  {
    if step.HashPass? {
      s' := s.(have := s.have + {step.piece}, completing := s.completing + multiset{step.piece});
    } else if step.Complete? {
      s' := s.(completing := s.completing - multiset{step.piece}, streams := Woken(l, s.streams, step.piece),
               parked := s.parked - Waiting(l, s.streams, step.piece));
    } else if step.Pause? {
      s' := s.(completing := multiset{});
    } else {
      s' := s;
    }
  }

  /** What a step of the live torrent does to the have bits and pending completions. */
  ghost predicate Concerns(l: Lengths, t: PieceProtocol.State, step: PieceProtocol.Step, t': PieceProtocol.State) {
    && PieceBits.Wf(l, t.bits) && PieceBits.Wf(l, t'.bits)
    && (step.HashPass? ==>
          && step.piece < TotalPieces(l) && t'.bits.have == t.bits.have[step.piece := true]
          && t'.completing == t.completing + multiset{step.piece})
    && (step.Complete? ==> step.piece in t.completing && t'.completing == t.completing - multiset{step.piece})
    && (step.Pause? ==> t'.completing == multiset{})
    && (!step.HashPass? ==> t'.bits.have == t.bits.have)
    && (!step.HashPass? && !step.Complete? && !step.Pause? ==> t'.completing == t.completing)
  }

  lemma HaveStep(l: Lengths, lens: seq<nat>, t: PieceProtocol.State, step: PieceProtocol.Step, t': PieceProtocol.State)
    requires PieceProtocol.Wellformed(l, lens, t) && PieceProtocol.Next(l, lens, t, step, t')
    ensures Concerns(l, t, step, t')
  {
    PieceProtocol.BitsStep(l, lens, t, step, t');
    if !step.HashPass? && !step.Complete? && !step.Pause? { OtherStepKeepsHave(l, lens, t, step, t'); }
  }

  lemma OtherStepKeepsHave(l: Lengths, lens: seq<nat>, t: PieceProtocol.State, step: PieceProtocol.Step, t': PieceProtocol.State)
    requires PieceProtocol.Wellformed(l, lens, t) && PieceProtocol.Next(l, lens, t, step, t')
    requires !step.HashPass? && !step.Complete? && !step.Pause?
    ensures t'.bits.have == t.bits.have && t'.completing == t.completing
  {
  }

  /** Completing a piece on a live torrent is a completion step: the registry changes as it says. */
  method CompletePiece(torrent: LiveTorrent.LiveTorrent, p: nat, ghost s: State) returns (ghost s': State)
    requires torrent.Valid() && torrent.live && p in torrent.completing
    requires Reflects(torrent.tracker.lengths, torrent.View(), s) && s.streams == torrent.streams.streams
    modifies torrent`completing, torrent.tracker`perFileBytes, torrent.streams
    ensures torrent.Valid() && Next(torrent.tracker.lengths, s, Complete(p), s')
    ensures Reflects(torrent.tracker.lengths, torrent.View(), s') && s'.streams == torrent.streams.streams
  {
    ghost var t := torrent.View();
    var r, _ := torrent.OnPieceCompleted(p, false);
    s' := TorrentStep(torrent.tracker.lengths, torrent.lens, t, PieceProtocol.Complete(p), torrent.View(), s);
  }

  /** A poll is one step: pending and parked, or ready after moving on. */
  method PollStream(l: Lengths, stream: FileStream, have: seq<bool>, file: seq<byte>, bufLen: nat, ghost s: State)
    returns (r: Poll, ghost s': State)
    requires stream.Valid(l) && |have| >= TotalPieces(l) && s.streams == stream.streams.streams
    requires forall p: nat :: p < TotalPieces(l) ==> (p in s.have <==> have[p])
    modifies stream`position, stream.streams
    ensures stream.Valid(l) && s'.streams == stream.streams.streams && stream.position >= old(stream.position)
    ensures if r.Pending? then Next(l, s, PollPending(stream.id), s')
            else Next(l, s, PollReady(stream.id, stream.position - old(stream.position)), s')
  {
    ghost var id, from := stream.id, stream.position;
    PieceOfByte(l, Min(stream.fileOffset + from, l.total - 1), 0);
    r := stream.PollRead(l, have, file, bufLen);
    if r.Pending? {
      s' := s.(streams := stream.streams.streams, parked := s.parked + {id});
    } else {
      s' := s.(streams := stream.streams.streams, parked := s.parked - {id});
      assert stream.position > from ==> HadByte(l, have, stream.fileOffset + from);
    }
  }

  /** A seek is one step if it succeeds, and none otherwise. */
  method SeekStream(l: Lengths, stream: FileStream, to: SeekFrom, ghost s: State) returns (ok: bool, ghost s': State)
    requires stream.Valid(l) && s.streams == stream.streams.streams
    modifies stream`position, stream.streams
    ensures stream.Valid(l) && s'.streams == stream.streams.streams
    ensures if ok then Next(l, s, Seek(stream.id, stream.position), s') else s' == s
  {
    ok := stream.StartSeek(l, to);
    s' := if ok then s.(streams := stream.streams.streams, parked := s.parked - {stream.id}) else s;
  }
}
