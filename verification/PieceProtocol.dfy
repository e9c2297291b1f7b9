/** The download protocol among peers as a state machine. Every lock-guarded block of the live
    torrent is one step; peers, disk tasks, reselection and pausing interleave freely. */
module PieceProtocol {
  import opened Lengths
  import opened FileLayout
  import opened PieceBits
  import opened ChunkMarking
  import opened FileCounters
  import opened PieceQueue

  type Peer = nat

  datatype Chunk = Chunk(piece: nat, index: nat)

  /** A received chunk on its way to disk. */
  datatype Write = Write(peer: Peer, chunk: Chunk)

  datatype State = State(
    bits: Bits,
    counters: seq<nat>,                // bytes credited to each file
    inflight: map<nat, Peer>,          // which peer each in-flight piece is expected from
    requests: map<Peer, set<Chunk>>,   // chunk requests of every live peer
    arrived: multiset<Write>,          // received, ownership not yet checked
    writes: multiset<Write>,           // being written, holding the piece lock for reading
    hashing: multiset<nat>,            // pieces whose hash is being checked
    completing: multiset<nat>,         // pieces that passed, not yet credited to their files
    live: bool)

  datatype Step =
    | Connect(peer: Peer)
    | Reserve(peer: Peer, piece: nat)
    | Steal(peer: Peer, piece: nat)
    | Request(peer: Peer, chunk: Chunk)
    | Receive(peer: Peer, chunk: Chunk)
    | CheckOwner(write: Write)
    | MarkChunk(write: Write)
    | HashPass(piece: nat)
    | HashFail(piece: nat)
    | HashError(piece: nat)
    | Complete(piece: nat)
    | PeerDied(peer: Peer)
    | NotNeeded(peer: Peer)
    | Reselected(only: set<nat>)
    | Pause
    | Resume

  predicate IsChunk(l: Lengths, c: Chunk) {
    c.piece < TotalPieces(l) && c.index < ChunksPerPiece(l, c.piece)
  }

  /** In-flight, hashed and passed pieces exist. */
  ghost predicate PiecesExist(l: Lengths, s: State) {
    && (forall p :: p in s.inflight ==> p < TotalPieces(l))
    && (forall p :: p in s.hashing || p in s.completing ==> p < TotalPieces(l))
  }

  ghost predicate RequestsExist(l: Lengths, s: State) {
    forall q, c :: q in s.requests && c in s.requests[q] ==> IsChunk(l, c)
  }

  ghost predicate WritesExist(l: Lengths, s: State) {
    forall w :: w in s.arrived || w in s.writes ==> IsChunk(l, w.chunk)
  }

  ghost predicate Wellformed(l: Lengths, lens: seq<nat>, s: State) {
    && Wf(l, s.bits) && |s.counters| == |lens|
    && PiecesExist(l, s) && RequestsExist(l, s) && WritesExist(l, s)
  }

  /** Nothing is going on. */
  function Idle(bits: Bits, counters: seq<nat>, live: bool): State {
    State(bits, counters, map[], map[], multiset{}, multiset{}, multiset{}, multiset{}, live)
  }

  /** Start of a download, as a new tracker leaves it: selected pieces not yet had are queued, had
      pieces have all their chunks and others none, and the counters are accurate. */
  ghost predicate Init(l: Lengths, lens: seq<nat>, s: State) {
    && Wf(l, s.bits) && s.bits.queue == Needed(s.bits.have, s.bits.selected)
    && (forall p, c :: 0 <= p < TotalPieces(l) && 0 <= c < ChunksPerPiece(l, p) ==>
          HasChunk(l, s.bits.chunks, p, c) == s.bits.have[p])
    && s == Idle(s.bits, Accurate(l, lens, s.bits.have), true)
  }

  /** Some file holding `p` does not look finished: only then is a queued `p` offered to peers. */
  ghost predicate Shown(l: Lengths, lens: seq<nat>, counters: seq<nat>, p: nat)
    requires |counters| == |lens|
  {
    exists i: nat :: InRange(l, lens, i, p) && counters[i] != lens[i]
  }

  function PiecesOf(cs: set<Chunk>): set<nat> { set c | c in cs :: c.piece }

  ghost predicate Next(l: Lengths, lens: seq<nat>, s: State, step: Step, s': State)
    requires Wellformed(l, lens, s)
  {
    match step
    case Connect(peer) =>
      s.live && peer !in s.requests && s' == s.(requests := s.requests[peer := {}])
    case Reserve(peer, p) =>
      && s.live && peer in s.requests && p < TotalPieces(l)
      && ((s.bits.queue[p] && Shown(l, lens, s.counters, p)) || (!s.bits.have[p] && p !in s.inflight))
      && s' == s.(bits := s.bits.(queue := s.bits.queue[p := false]), inflight := s.inflight[p := peer])
    case Steal(peer, p) =>
      && s.live && p in s.inflight && s.inflight[p] != peer
      && (forall w :: w in s.writes ==> w.chunk.piece != p)
      && s' == s.(inflight := s.inflight[p := peer])
    case Request(peer, c) =>
      && s.live && peer in s.requests && IsChunk(l, c)
      && s' == s.(requests := s.requests[peer := s.requests[peer] + {c}])
    case Receive(peer, c) =>
      && s.live && peer in s.requests && c in s.requests[peer]
      && s' == s.(requests := s.requests[peer := s.requests[peer] - {c}],
                  arrived := s.arrived + multiset{Write(peer, c)})
    case CheckOwner(w) =>
      && s.live && w in s.arrived
      && s' == s.(arrived := s.arrived - multiset{w},
                  writes := if Owns(s, w) then s.writes + multiset{w} else s.writes)
    case MarkChunk(w) =>
      && s.live && w in s.writes
      && var (chunks, answer) := Mark(l, s.bits.chunks, w.chunk.piece, w.chunk.index);
         var s1 := s.(bits := s.bits.(chunks := chunks), writes := s.writes - multiset{w});
         s' == if answer == Completed && w.chunk.piece in s.inflight
               then s1.(inflight := s.inflight - {w.chunk.piece}, hashing := s.hashing + multiset{w.chunk.piece})
               else s1
    case HashPass(p) =>
      && s.live && p in s.hashing
      && s' == s.(bits := s.bits.(have := s.bits.have[p := true]), hashing := s.hashing - multiset{p},
                  completing := s.completing + multiset{p})
    case HashFail(p) =>
      && s.live && p in s.hashing
      && s' == s.(bits := MarkBroken(l, s.bits, p), hashing := s.hashing - multiset{p})
    case HashError(p) =>
      s.live && p in s.hashing && s' == s.(hashing := s.hashing - multiset{p})
    case Complete(p) =>
      && s.live && p in s.completing
      && s' == s.(counters := Credited(l, lens, s.counters, p), completing := s.completing - multiset{p})
    case PeerDied(peer) =>
      && s.live && peer in s.requests && Broken(l, s.bits, PiecesOf(s.requests[peer]), s'.bits)
      && s' == s.(bits := s'.bits, requests := s.requests - {peer})
    // A peer put aside when the torrent finished. Its requests are forgotten, not cancelled; and the
    // lock was released meanwhile, so that the torrent need not be finished any more.
    case NotNeeded(peer) =>
      s.live && peer in s.requests && s' == s.(requests := s.requests - {peer})
    case Reselected(only) =>
      s' == s.(bits := Reselect(l, lens, only, s.bits, TotalPieces(l)))
    case Pause =>
      && s.live && Broken(l, s.bits, s.inflight.Keys, s'.bits)
      && s' == Idle(s'.bits, s.counters, false)
    case Resume =>
      !s.live && s' == s.(live := true)
  }

  predicate Owns(s: State, w: Write) {
    w.chunk.piece in s.inflight && s.inflight[w.chunk.piece] == w.peer
  }

  // ---- no needed piece is lost ----

  ghost predicate NeededPiece(l: Lengths, b: Bits, p: nat)
    requires Wf(l, b)
  {
    p < TotalPieces(l) && b.selected[p] && !b.have[p]
  }

  /** Every selected piece not yet had is queued, in flight or being hashed. */
  ghost predicate Covered(l: Lengths, s: State)
    requires Wf(l, s.bits)
  {
    forall p: nat :: NeededPiece(l, s.bits, p) ==> s.bits.queue[p] || p in s.inflight || p in s.hashing
  }

  /** Needed pieces that only the hash check stands for. */
  ghost predicate OnlyHashed(l: Lengths, s: State, p: nat)
    requires Wf(l, s.bits)
  {
    NeededPiece(l, s.bits, p) && !s.bits.queue[p] && p !in s.inflight && p in s.hashing
  }

  /** Steps that can drop the last trace of a needed piece: a pause while such a piece is being
      hashed, and an I/O error in the last hash check of one. */
  ghost predicate Loses(l: Lengths, s: State, step: Step)
    requires Wf(l, s.bits)
  {
    || (step.Pause? && exists p: nat :: OnlyHashed(l, s, p))
    || (step.HashError? && OnlyHashed(l, s, step.piece) && s.hashing[step.piece] == 1)
  }

  lemma BitsStep(l: Lengths, lens: seq<nat>, s: State, step: Step, s': State)
    requires Wellformed(l, lens, s) && Next(l, lens, s, step, s')
    ensures Wf(l, s'.bits)
  {
  }

  lemma PiecesStep(l: Lengths, lens: seq<nat>, s: State, step: Step, s': State)
    requires Wellformed(l, lens, s) && Next(l, lens, s, step, s')
    ensures PiecesExist(l, s')
  {
    InflightExists(l, lens, s, step, s');
    ChecksExist(l, lens, s, step, s');
  }

  lemma InflightExists(l: Lengths, lens: seq<nat>, s: State, step: Step, s': State)
    requires Wellformed(l, lens, s) && Next(l, lens, s, step, s')
    ensures forall p :: p in s'.inflight ==> p < TotalPieces(l)
  {
  }

  lemma ChecksExist(l: Lengths, lens: seq<nat>, s: State, step: Step, s': State)
    requires Wellformed(l, lens, s) && Next(l, lens, s, step, s')
    ensures forall p :: p in s'.hashing || p in s'.completing ==> p < TotalPieces(l)
  {
  }

  lemma RequestsStep(l: Lengths, lens: seq<nat>, s: State, step: Step, s': State)
    requires Wellformed(l, lens, s) && Next(l, lens, s, step, s')
    ensures RequestsExist(l, s')
  {
  }

  lemma WritesStep(l: Lengths, lens: seq<nat>, s: State, step: Step, s': State)
    requires Wellformed(l, lens, s) && Next(l, lens, s, step, s')
    ensures WritesExist(l, s')
  {
  }

  lemma WellformedStep(l: Lengths, lens: seq<nat>, s: State, step: Step, s': State)
    requires Wellformed(l, lens, s) && Next(l, lens, s, step, s')
    ensures Wellformed(l, lens, s')
  {
    BitsStep(l, lens, s, step, s');
    PiecesStep(l, lens, s, step, s');
    RequestsStep(l, lens, s, step, s');
    WritesStep(l, lens, s, step, s');
  }

  /** After a pause the queue holds a needed piece unless only the hash check stood for it. */
  lemma PauseQueues(l: Lengths, lens: seq<nat>, s: State, s': State, p: nat)
    requires Wellformed(l, lens, s) && Next(l, lens, s, Pause, s') && Covered(l, s)
    ensures NeededPiece(l, s'.bits, p) <==> NeededPiece(l, s.bits, p)
    ensures NeededPiece(l, s.bits, p) ==> (s'.bits.queue[p] <==> !OnlyHashed(l, s, p))
  {
  }

  lemma PauseCovers(l: Lengths, lens: seq<nat>, s: State, s': State)
    requires Wellformed(l, lens, s) && Next(l, lens, s, Pause, s') && Covered(l, s)
    ensures Covered(l, s') <==> forall p: nat :: !OnlyHashed(l, s, p)
  {
    if Covered(l, s') {
      forall p: nat ensures !OnlyHashed(l, s, p) { PauseQueues(l, lens, s, s', p); }
    }
    if forall p: nat :: !OnlyHashed(l, s, p) {
      forall p: nat | NeededPiece(l, s'.bits, p) ensures s'.bits.queue[p] { PauseQueues(l, lens, s, s', p); }
    }
  }

  lemma HashErrorCovers(l: Lengths, lens: seq<nat>, s: State, q: nat, s': State)
    requires Wellformed(l, lens, s) && Next(l, lens, s, HashError(q), s') && Covered(l, s)
    ensures Covered(l, s') <==> !(OnlyHashed(l, s, q) && s.hashing[q] == 1)
  {
    if OnlyHashed(l, s, q) && s.hashing[q] == 1 {
      assert NeededPiece(l, s'.bits, q);
    }
    forall p: nat ensures NeededPiece(l, s'.bits, p) <==> NeededPiece(l, s.bits, p) {}
  }

  /** Every step but a reselection, a pause and a hash error covers, piece by piece. */
  lemma OrdinaryStepCovers(l: Lengths, lens: seq<nat>, s: State, step: Step, s': State, p: nat)
    requires Wellformed(l, lens, s) && Next(l, lens, s, step, s') && Covered(l, s)
    requires !step.Reselected? && !step.Pause? && !step.HashError?
    requires Wf(l, s'.bits) && NeededPiece(l, s'.bits, p)
    ensures s'.bits.queue[p] || p in s'.inflight || p in s'.hashing
  {
    assert NeededPiece(l, s.bits, p);
  }

  /** A step keeps every needed piece covered if and only if it is not a losing step. */
  lemma CoveredStep(l: Lengths, lens: seq<nat>, s: State, step: Step, s': State)
    requires Wellformed(l, lens, s) && Next(l, lens, s, step, s') && Covered(l, s)
    ensures Wf(l, s'.bits) && (Covered(l, s') <==> !Loses(l, s, step))
  {
    WellformedStep(l, lens, s, step, s');
    if step.Pause? {
      PauseCovers(l, lens, s, s');
    } else if step.HashError? {
      HashErrorCovers(l, lens, s, step.piece, s');
    } else if step.Reselected? {
      ReselectEffect(l, lens, step.only, s.bits, TotalPieces(l));
    } else {
      forall p: nat | NeededPiece(l, s'.bits, p) ensures s'.bits.queue[p] || p in s'.inflight || p in s'.hashing {
        OrdinaryStepCovers(l, lens, s, step, s', p);
      }
    }
  }

  /** A needed piece that nothing stands for. */
  ghost predicate Lost(l: Lengths, s: State, p: nat)
    requires Wf(l, s.bits)
  {
    NeededPiece(l, s.bits, p) && !s.bits.queue[p] && p !in s.inflight && p !in s.hashing
  }

  /** A lost piece stays lost until exactly one of these: the files are selected anew, a stream asks
      for it, or a peer dies that still had a request for it. */
  lemma LostStep(l: Lengths, lens: seq<nat>, s: State, step: Step, s': State, p: nat)
    requires Wellformed(l, lens, s) && Next(l, lens, s, step, s') && Lost(l, s, p)
    ensures Wf(l, s'.bits)
    ensures !Lost(l, s', p) <==>
              || step.Reselected? || (step.Reserve? && step.piece == p)
              || (step.PeerDied? && p in PiecesOf(s.requests[step.peer]))
  {
    BitsStep(l, lens, s, step, s');
    if step.Reselected? {
      ReselectEffect(l, lens, step.only, s.bits, TotalPieces(l));
    } else {
      OtherStepKeepsLost(l, lens, s, step, s', p);
    }
  }

  lemma OtherStepKeepsLost(l: Lengths, lens: seq<nat>, s: State, step: Step, s': State, p: nat)
    requires Wellformed(l, lens, s) && Next(l, lens, s, step, s') && Lost(l, s, p) && Wf(l, s'.bits)
    requires !step.Reselected?
    ensures !Lost(l, s', p) <==>
              (step.Reserve? && step.piece == p) || (step.PeerDied? && p in PiecesOf(s.requests[step.peer]))
  {
    LostFlight(l, lens, s, step, s', p);
    LostBits(l, lens, s, step, s', p);
  }

  lemma LostFlight(l: Lengths, lens: seq<nat>, s: State, step: Step, s': State, p: nat)
    requires Wellformed(l, lens, s) && Next(l, lens, s, step, s') && Lost(l, s, p)
    ensures p !in s'.hashing && (p in s'.inflight <==> step.Reserve? && step.piece == p)
  {
  }

  lemma LostBits(l: Lengths, lens: seq<nat>, s: State, step: Step, s': State, p: nat)
    requires Wellformed(l, lens, s) && Next(l, lens, s, step, s') && Lost(l, s, p) && Wf(l, s'.bits)
    requires !step.Reselected?
    ensures NeededPiece(l, s'.bits, p)
    ensures s'.bits.queue[p] <==> step.PeerDied? && p in PiecesOf(s.requests[step.peer])
  {
  }

  /** A run: states linked by steps. */
  ghost predicate Run(l: Lengths, lens: seq<nat>, states: seq<State>, steps: seq<Step>) {
    && |states| == |steps| + 1 && Init(l, lens, states[0])
    && forall k :: 0 <= k < |steps| ==>
         Wellformed(l, lens, states[k]) && Next(l, lens, states[k], steps[k], states[k + 1])
  }

  /** In every run without a losing step, every selected piece not yet had is queued, in flight
      or being hashed, in every state. */
  lemma {:induction false} NoNeededPieceLost(l: Lengths, lens: seq<nat>, states: seq<State>, steps: seq<Step>, n: nat)
    requires Run(l, lens, states, steps) && n <= |steps|
    requires forall k :: 0 <= k < n ==> !Loses(l, states[k], steps[k])
    ensures Wellformed(l, lens, states[n]) && Covered(l, states[n])
  {
    if n > 0 {
      NoNeededPieceLost(l, lens, states, steps, n - 1);
      WellformedStep(l, lens, states[n - 1], steps[n - 1], states[n]);
      CoveredStep(l, lens, states[n - 1], steps[n - 1], states[n]);
    } else {
      forall p: nat | NeededPiece(l, states[0].bits, p) ensures states[0].bits.queue[p] {
        assert Needed(states[0].bits.have, states[0].bits.selected)[p];
      }
    }
  }

  /** Whether a queued piece is offered to peers, in any state: iff some file holding it does not
      look finished. Every file is listed in the order of download. */
  lemma OfferedIffShown(l: Lengths, lens: seq<nat>, s: State, order: seq<nat>, p: nat)
    requires Wellformed(l, lens, s) && TotalLength(lens) == l.total && TotalPieces(l) < WORD
    requires forall i :: 0 <= i < |lens| ==> i in order
    ensures p in IterQueued(l, lens, s.bits.queue, s.counters, order)
            <==> p < TotalPieces(l) && s.bits.queue[p] && Shown(l, lens, s.counters, p)
  {
    IterQueuedMembers(l, lens, s.bits.queue, s.counters, order, p);
    if i: nat :| InRange(l, lens, i, p) && s.counters[i] != lens[i] {
      assert Offers(lens, s.counters, order, i);
      RangeInTorrent(l, lens, i);
    }
  }

  lemma HaveStep(l: Lengths, lens: seq<nat>, s: State, step: Step, s': State, p: nat)
    requires Wellformed(l, lens, s) && Next(l, lens, s, step, s') && p < |s.bits.have| && s.bits.have[p]
    ensures p < |s'.bits.have| && s'.bits.have[p]
  {
  }

  /** Pieces once had are had for good, over every run. */
  lemma {:induction false} HaveNeverShrinks(l: Lengths, lens: seq<nat>, states: seq<State>, steps: seq<Step>, m: nat, n: nat, p: nat)
    requires Run(l, lens, states, steps) && m <= n <= |steps|
    requires p < |states[m].bits.have| && states[m].bits.have[p]
    ensures p < |states[n].bits.have| && states[n].bits.have[p]
    decreases n
  {
    if m < n {
      HaveNeverShrinks(l, lens, states, steps, m, n - 1, p);
      HaveStep(l, lens, states[n - 1], steps[n - 1], states[n], p);
    }
  }

  // ---- the piece lock ----

  lemma OtherStepKeepsOwner(l: Lengths, lens: seq<nat>, s: State, step: Step, s': State, w: Write)
    requires Wellformed(l, lens, s) && Next(l, lens, s, step, s') && !step.Reserve? && !step.MarkChunk?
    requires w in s.writes && Owns(s, w) && w in s'.writes
    ensures Owns(s', w) && (!step.Steal? || step.piece != w.chunk.piece)
  {
  }

  /** While a write holds the piece lock the piece stays with its peer, unless the piece had been
      queued again and another peer reserves it, or another chunk completes it. In particular
      nobody can steal it. */
  lemma WriterKeepsPiece(l: Lengths, lens: seq<nat>, s: State, step: Step, s': State, w: Write)
    requires Wellformed(l, lens, s) && Next(l, lens, s, step, s')
    requires w in s.writes && Owns(s, w) && w in s'.writes
    ensures !step.Steal? || step.piece != w.chunk.piece
    ensures !Owns(s', w) <==>
              || (step.Reserve? && step.piece == w.chunk.piece && step.peer != w.peer && s.bits.queue[step.piece])
              || (step.MarkChunk? && step.write.chunk.piece == w.chunk.piece
                  && Mark(l, s.bits.chunks, w.chunk.piece, step.write.chunk.index).1 == Completed)
  {
    if !step.Reserve? && !step.MarkChunk? { OtherStepKeepsOwner(l, lens, s, step, s', w); }
  }
}
