/** Whether a covered piece can still be completed. A piece whose chunks are all marked answers every
    further chunk with `PreviouslyCompleted`, so unless it is had or being hashed it is stuck. */
module Completion {
  import opened Lengths
  import opened PieceBits
  import opened ChunkMarking
  import opened PieceProtocol

  /** All chunks are marked, yet the piece is neither had nor being hashed. */
  ghost predicate Stuck(l: Lengths, s: State, p: nat)
    requires Wf(l, s.bits)
  {
    p < TotalPieces(l) && !s.bits.have[p] && PieceFull(l, s.bits.chunks, p) && p !in s.hashing
  }

  ghost predicate NoneStuck(l: Lengths, s: State)
    requires Wf(l, s.bits)
  {
    forall p: nat :: !Stuck(l, s, p)
  }

  /** The piece is full and only the hash check stands for it. */
  ghost predicate FullWhileHashed(l: Lengths, s: State, p: nat)
    requires Wf(l, s.bits)
  {
    p < TotalPieces(l) && !s.bits.have[p] && PieceFull(l, s.bits.chunks, p) && p in s.hashing
  }

  /** The steps after which a piece is stuck that was not: a chunk that completes a piece which is
      not in flight, an error in the last hash check of a full piece, and a pause during it. */
  ghost predicate Sticks(l: Lengths, s: State, step: Step, p: nat)
    requires Wf(l, s.bits)
  {
    match step
    case MarkChunk(w) =>
      && w.chunk.piece == p && IsChunk(l, w.chunk) && p !in s.inflight && p !in s.hashing && !s.bits.have[p]
      && Mark(l, s.bits.chunks, p, w.chunk.index).1 == Completed
    case HashError(q) => q == p && FullWhileHashed(l, s, p) && s.hashing[p] == 1
    case Pause => FullWhileHashed(l, s, p) && p !in s.inflight
    case _ => false
  }

  ghost predicate MakesStuck(l: Lengths, s: State, step: Step)
    requires Wf(l, s.bits)
  {
    exists p: nat :: Sticks(l, s, step, p)
  }

  /** The steps after which a stuck piece is not stuck any more: they clear its chunks. */
  ghost predicate Frees(l: Lengths, lens: seq<nat>, s: State, step: Step, p: nat) {
    match step
    case PeerDied(peer) => peer in s.requests && p in PiecesOf(s.requests[peer])
    case Reselected(only) => PieceChosen(l, lens, only, p)
    case Pause => p in s.inflight
    case _ => false
  }

  /** Marking a chunk changes no other piece, and fills its own iff it answers so. */
  lemma MarkFills(l: Lengths, chunks: seq<bool>, p: nat, c: nat, q: nat)
    requires |chunks| >= TotalChunks(l) && p < TotalPieces(l) && c < ChunksPerPiece(l, p) && q < TotalPieces(l)
    ensures PieceFull(l, Mark(l, chunks, p, c).0, q)
            <==> PieceFull(l, chunks, q) || (q == p && Mark(l, chunks, p, c).1 == Completed)
  {
    if q != p {
      EventEffect(l, chunks, Arrive(p, c), q);
      FullIsAll(l, chunks, q);
      FullIsAll(l, Mark(l, chunks, p, c).0, q);
    }
  }

  /** No piece is both full and free of chunks. */
  lemma ClearedIsNotFull(l: Lengths, chunks: seq<bool>, p: nat)
    requires |chunks| >= TotalChunks(l) && p < TotalPieces(l)
    ensures !PieceFull(l, FillPiece(l, chunks, p, false), p)
  {
    FillPieceEffect(l, chunks, p, false);
    assert !HasChunk(l, FillPiece(l, chunks, p, false), p, 0);
  }

  lemma FullAfterClear(l: Lengths, chunks: seq<bool>, p: nat, q: nat)
    requires |chunks| >= TotalChunks(l) && p < TotalPieces(l) && q < TotalPieces(l)
    ensures PieceFull(l, FillPiece(l, chunks, p, false), q) <==> q != p && PieceFull(l, chunks, q)
  {
    if q == p {
      ClearedIsNotFull(l, chunks, p);
    } else {
      FillPieceEffect(l, chunks, p, false);
    }
  }

  /** Which pieces are full after pieces `ps` were marked broken. */
  lemma FullAfterBroken(l: Lengths, b: Bits, ps: set<nat>, b': Bits, q: nat)
    requires Broken(l, b, ps, b') && q < TotalPieces(l)
    ensures PieceFull(l, b'.chunks, q) <==> PieceFull(l, b.chunks, q) && !(q in ps && !b.have[q])
  {
    if q in ps && !b.have[q] {
      assert !HasChunk(l, b'.chunks, q, 0);
    }
  }

  lemma FullAfterReselect(l: Lengths, lens: seq<nat>, only: set<nat>, b: Bits, q: nat)
    requires Wf(l, b) && q < TotalPieces(l)
    ensures PieceFull(l, Reselect(l, lens, only, b, TotalPieces(l)).chunks, q)
            <==> PieceFull(l, b.chunks, q) && !(PieceChosen(l, lens, only, q) && !b.have[q])
  {
    ReselectChunks(l, lens, only, b, TotalPieces(l));
    if PieceChosen(l, lens, only, q) && !b.have[q] {
      assert !HasChunk(l, Reselect(l, lens, only, b, TotalPieces(l)).chunks, q, 0);
    }
  }

  /** What a step does to full pieces that are not had. */
  lemma FullStep(l: Lengths, lens: seq<nat>, s: State, step: Step, s': State, p: nat)
    requires Wellformed(l, lens, s) && Next(l, lens, s, step, s') && Wf(l, s'.bits)
    requires p < TotalPieces(l) && !s'.bits.have[p]
    ensures !s.bits.have[p]
    ensures PieceFull(l, s'.bits.chunks, p) <==>
              || (PieceFull(l, s.bits.chunks, p) && !Frees(l, lens, s, step, p) && !(step.HashFail? && step.piece == p))
              || (step.MarkChunk? && step.write.chunk.piece == p
                  && Mark(l, s.bits.chunks, p, step.write.chunk.index).1 == Completed)
  {
    if step.MarkChunk? || step.HashFail? {
      FullOneStep(l, lens, s, step, s', p);
    } else if step.PeerDied? || step.Reselected? || step.Pause? {
      FullManyStep(l, lens, s, step, s', p);
    } else {
      ChunksKept(l, lens, s, step, s');
    }
  }

  lemma FullOneStep(l: Lengths, lens: seq<nat>, s: State, step: Step, s': State, p: nat)
    requires Wellformed(l, lens, s) && Next(l, lens, s, step, s') && Wf(l, s'.bits)
    requires p < TotalPieces(l) && !s'.bits.have[p] && (step.MarkChunk? || step.HashFail?)
    ensures !s.bits.have[p]
    ensures PieceFull(l, s'.bits.chunks, p) <==>
              || (PieceFull(l, s.bits.chunks, p) && !(step.HashFail? && step.piece == p))
              || (step.MarkChunk? && step.write.chunk.piece == p
                  && Mark(l, s.bits.chunks, p, step.write.chunk.index).1 == Completed)
  {
    match step
    case MarkChunk(w) => MarkFills(l, s.bits.chunks, w.chunk.piece, w.chunk.index, p);
    case HashFail(q) => FullAfterClear(l, s.bits.chunks, q, p);
  }

  lemma FullManyStep(l: Lengths, lens: seq<nat>, s: State, step: Step, s': State, p: nat)
    requires Wellformed(l, lens, s) && Next(l, lens, s, step, s') && Wf(l, s'.bits)
    requires p < TotalPieces(l) && !s'.bits.have[p] && (step.PeerDied? || step.Reselected? || step.Pause?)
    ensures !s.bits.have[p]
    ensures PieceFull(l, s'.bits.chunks, p) <==> PieceFull(l, s.bits.chunks, p) && !Frees(l, lens, s, step, p)
  {
    match step
    case PeerDied(peer) => FullAfterBroken(l, s.bits, PiecesOf(s.requests[peer]), s'.bits, p);
    case Reselected(only) => FullAfterReselect(l, lens, only, s.bits, p);
    case Pause => FullAfterBroken(l, s.bits, s.inflight.Keys, s'.bits, p);
  }

  lemma ChunksKept(l: Lengths, lens: seq<nat>, s: State, step: Step, s': State)
    requires Wellformed(l, lens, s) && Next(l, lens, s, step, s')
    requires !step.MarkChunk? && !step.HashFail? && !step.PeerDied? && !step.Reselected? && !step.Pause?
    ensures s'.bits.chunks == s.bits.chunks
  {
  }

  lemma HashingStep(l: Lengths, lens: seq<nat>, s: State, step: Step, s': State, p: nat)
    requires Wellformed(l, lens, s) && Next(l, lens, s, step, s') && Wf(l, s'.bits)
    requires p < TotalPieces(l) && !s'.bits.have[p]
    ensures p in s'.hashing <==>
              || (step.MarkChunk? && step.write.chunk.piece == p && p in s.inflight
                  && Mark(l, s.bits.chunks, p, step.write.chunk.index).1 == Completed)
              || (p in s.hashing && !step.Pause?
                  && !((step.HashFail? || step.HashError?) && step.piece == p && s.hashing[p] == 1))
  {
  }

  /** Exactly these steps make a piece stuck, and exactly these free a stuck one. */
  lemma StuckStep(l: Lengths, lens: seq<nat>, s: State, step: Step, s': State, p: nat)
    requires Wellformed(l, lens, s) && Next(l, lens, s, step, s')
    ensures Wf(l, s'.bits)
    ensures !Stuck(l, s, p) ==> (Stuck(l, s', p) <==> Sticks(l, s, step, p))
    ensures Stuck(l, s, p) ==> (!Stuck(l, s', p) <==> Frees(l, lens, s, step, p))
  {
    BitsStep(l, lens, s, step, s');
    if p < TotalPieces(l) {
      if s'.bits.have[p] {
        if !s.bits.have[p] { PassedHave(l, lens, s, step, s', p); }
      } else {
        FullStep(l, lens, s, step, s', p);
        HashingStep(l, lens, s, step, s', p);
      }
    }
  }

  lemma PassedHave(l: Lengths, lens: seq<nat>, s: State, step: Step, s': State, p: nat)
    requires Wellformed(l, lens, s) && Next(l, lens, s, step, s')
    requires p < |s.bits.have| && p < |s'.bits.have| && !s.bits.have[p] && s'.bits.have[p]
    ensures step == HashPass(p) && p in s.hashing
  {
  }

  lemma NoneStuckStep(l: Lengths, lens: seq<nat>, s: State, step: Step, s': State)
    requires Wellformed(l, lens, s) && Next(l, lens, s, step, s') && NoneStuck(l, s)
    ensures Wellformed(l, lens, s')
    ensures NoneStuck(l, s') <==> !MakesStuck(l, s, step)
  {
    WellformedStep(l, lens, s, step, s');
    forall p: nat ensures Stuck(l, s', p) <==> Sticks(l, s, step, p) {
      StuckStep(l, lens, s, step, s', p);
    }
  }

  lemma InitNoneStuck(l: Lengths, lens: seq<nat>, s: State)
    requires Init(l, lens, s)
    ensures NoneStuck(l, s)
  {
    forall p: nat ensures !Stuck(l, s, p) {
      if p < TotalPieces(l) && PieceFull(l, s.bits.chunks, p) {
        assert HasChunk(l, s.bits.chunks, p, 0);
      }
    }
  }

  /** In every run whose steps leave no piece stuck, every piece with all its chunks marked is had or
      being hashed. */
  lemma {:induction false} FullPiecesAreHashed(l: Lengths, lens: seq<nat>, states: seq<State>, steps: seq<Step>, n: nat)
    requires Run(l, lens, states, steps) && n <= |steps|
    requires forall k :: 0 <= k < n ==> !MakesStuck(l, states[k], steps[k])
    ensures Wellformed(l, lens, states[n]) && NoneStuck(l, states[n])
  {
    if n > 0 {
      FullPiecesAreHashed(l, lens, states, steps, n - 1);
      NoneStuckStep(l, lens, states[n - 1], steps[n - 1], states[n]);
    } else {
      InitNoneStuck(l, lens, states[0]);
    }
  }
}
