/** The piece protocol field by field: what every step does to one peer, one piece or one write; and
    the requests of a peer over whole runs. */
module ProtocolFields {
  import opened Lengths
  import opened FileLayout
  import opened PieceBits
  import opened ChunkMarking
  import opened Outcomes
  import opened PieceProtocol

  // ---- peers ----

  /** A peer is live from its connection until it dies, is put aside, or the torrent is paused. */
  lemma LiveStep(l: Lengths, lens: seq<nat>, s: State, step: Step, s': State, q: Peer)
    requires Wellformed(l, lens, s) && Next(l, lens, s, step, s')
    ensures q in s'.requests <==>
              || step == Connect(q)
              || (q in s.requests && step != PeerDied(q) && step != NotNeeded(q) && step != Pause)
  {
    PeersStep(l, lens, s, step, s');
  }

  /** The requests as a whole. */
  lemma RequestsStep(l: Lengths, lens: seq<nat>, s: State, step: Step, s': State)
    requires Wellformed(l, lens, s) && Next(l, lens, s, step, s')
    ensures s'.requests ==
              match step
              case Connect(q) => s.requests[q := {}]
              case Request(q, c) => if q in s.requests then s.requests[q := s.requests[q] + {c}] else s.requests
              case Receive(q, c) => if q in s.requests then s.requests[q := s.requests[q] - {c}] else s.requests
              case PeerDied(q) => s.requests - {q}
              case NotNeeded(q) => s.requests - {q}
              case Pause => map[]
              case _ => s.requests
    ensures step.Request? || step.Receive? ==> step.peer in s.requests
    ensures step.Connect? ==> step.peer !in s.requests
  {
  }

  lemma PeersStep(l: Lengths, lens: seq<nat>, s: State, step: Step, s': State)
    requires Wellformed(l, lens, s) && Next(l, lens, s, step, s')
    ensures s'.requests.Keys ==
              if step.Connect? then s.requests.Keys + {step.peer}
              else if step.PeerDied? || step.NotNeeded? then s.requests.Keys - {step.peer}
              else if step.Pause? then {}
              else s.requests.Keys
  {
    RequestsStep(l, lens, s, step, s');
  }

  /** A chunk is outstanding from its request until it is received. */
  lemma RequestStep(l: Lengths, lens: seq<nat>, s: State, step: Step, s': State, q: Peer, c: Chunk)
    requires Wellformed(l, lens, s) && Next(l, lens, s, step, s') && q in s'.requests
    ensures c in s'.requests[q] <==>
              step == Request(q, c) || (q in s.requests && c in s.requests[q] && step != Receive(q, c))
  {
    RequestsStep(l, lens, s, step, s');
  }

  /** Losing one peer takes its requests away and leaves those of every other peer alone. */
  lemma OthersKeepRequests(l: Lengths, lens: seq<nat>, s: State, step: Step, s': State, q: Peer)
    requires Wellformed(l, lens, s) && Next(l, lens, s, step, s') && (step == PeerDied(q) || step == NotNeeded(q))
    ensures s'.requests.Keys == s.requests.Keys - {q}
    ensures forall r :: r in s'.requests ==> s'.requests[r] == s.requests[r]
  {
    RequestsStep(l, lens, s, step, s');
  }

  /** What is outstanding with peer `q` after a history of steps; nothing is when it is not live. */
  function Outstanding(steps: seq<Step>, q: Peer): Option<set<Chunk>> {
    if steps == [] then None
    else
      var before := Outstanding(steps[..|steps| - 1], q);
      match steps[|steps| - 1]
      case Connect(r) => if r == q then Some({}) else before
      case PeerDied(r) => if r == q then None else before
      case NotNeeded(r) => if r == q then None else before
      case Pause => None
      case Request(r, c) => if r == q && before.Some? then Some(before.value + {c}) else before
      case Receive(r, c) => if r == q && before.Some? then Some(before.value - {c}) else before
      case _ => before
  }

  /** In every state of every run a peer is live, and has outstanding, what the history says. */
  lemma {:induction false} RequestsAreOutstanding(l: Lengths, lens: seq<nat>, states: seq<State>, steps: seq<Step>, n: nat, q: Peer)
    requires Run(l, lens, states, steps) && n <= |steps|
    ensures q in states[n].requests <==> Outstanding(steps[..n], q).Some?
    ensures q in states[n].requests ==> states[n].requests[q] == Outstanding(steps[..n], q).value
  {
    if n > 0 {
      RequestsAreOutstanding(l, lens, states, steps, n - 1, q);
      assert steps[..n][..n - 1] == steps[..n - 1];
      OutstandingStep(l, lens, states[n - 1], steps[n - 1], states[n], steps[..n], q);
    }
  }

  lemma OutstandingStep(l: Lengths, lens: seq<nat>, s: State, step: Step, s': State, history: seq<Step>, q: Peer)
    requires Wellformed(l, lens, s) && Next(l, lens, s, step, s') && history != [] && history[|history| - 1] == step
    requires var before := Outstanding(history[..|history| - 1], q);
             (q in s.requests <==> before.Some?) && (q in s.requests ==> s.requests[q] == before.value)
    ensures q in s'.requests <==> Outstanding(history, q).Some?
    ensures q in s'.requests ==> s'.requests[q] == Outstanding(history, q).value
  {
    LiveStep(l, lens, s, step, s', q);
    if q in s'.requests {
      forall c ensures c in s'.requests[q] <==> c in Outstanding(history, q).value { RequestStep(l, lens, s, step, s', q, c); }
    }
  }

  /** A peer that died or was put aside is gone: until it connects again it is not live, and nothing
      is reserved for it, requested from it or received from it. */
  lemma GoneUntilConnected(l: Lengths, lens: seq<nat>, states: seq<State>, steps: seq<Step>, k: nat, n: nat, q: Peer)
    requires Run(l, lens, states, steps) && k < n <= |steps| && (steps[k] == PeerDied(q) || steps[k] == NotNeeded(q))
    requires forall m :: k < m < n ==> steps[m] != Connect(q)
    ensures q !in states[n].requests
    ensures n < |steps| ==>
              && !(steps[n].Reserve? && steps[n].peer == q)
              && !(steps[n].Request? && steps[n].peer == q) && !(steps[n].Receive? && steps[n].peer == q)
  {
    NothingOutstanding(steps, k, n, q);
    RequestsAreOutstanding(l, lens, states, steps, n, q);
    if n < |steps| {
      RunStep(l, lens, states, steps, n);
      NeedsLivePeer(l, lens, states[n], steps[n], states[n + 1], q);
    }
  }

  lemma {:induction false} NothingOutstanding(steps: seq<Step>, k: nat, n: nat, q: Peer)
    requires k < n <= |steps| && (steps[k] == PeerDied(q) || steps[k] == NotNeeded(q))
    requires forall m :: k < m < n ==> steps[m] != Connect(q)
    ensures Outstanding(steps[..n], q) == None
    decreases n
  {
    if k + 1 < n { NothingOutstanding(steps, k, n - 1, q); }
    assert steps[..n][..n - 1] == steps[..n - 1] && steps[..n][n - 1] == steps[n - 1];
  }

  lemma RunStep(l: Lengths, lens: seq<nat>, states: seq<State>, steps: seq<Step>, k: nat)
    requires Run(l, lens, states, steps) && k < |steps|
    ensures Wellformed(l, lens, states[k]) && Next(l, lens, states[k], steps[k], states[k + 1])
  {
  }

  lemma NeedsLivePeer(l: Lengths, lens: seq<nat>, s: State, step: Step, s': State, q: Peer)
    requires Wellformed(l, lens, s) && Next(l, lens, s, step, s') && q !in s.requests
    ensures !((step.Reserve? || step.Request? || step.Receive?) && step.peer == q)
  {
  }

  // ---- pieces ----

  /** The step marks the last missing chunk of `p`. */
  ghost predicate MarksLast(l: Lengths, s: State, step: Step, p: nat)
    requires Wf(l, s.bits)
  {
    && step.MarkChunk? && step.write.chunk.piece == p && IsChunk(l, step.write.chunk)
    && Mark(l, s.bits.chunks, p, step.write.chunk.index).1 == Completed
  }

  /** The in-flight map as a whole. */
  lemma InflightStep(l: Lengths, lens: seq<nat>, s: State, step: Step, s': State)
    requires Wellformed(l, lens, s) && Next(l, lens, s, step, s')
    ensures s'.inflight ==
              match step
              case Reserve(q, p) => s.inflight[p := q]
              case Steal(q, p) => s.inflight[p := q]
              case MarkChunk(w) => if MarksLast(l, s, step, w.chunk.piece) then s.inflight - {w.chunk.piece} else s.inflight
              case Pause => map[]
              case _ => s.inflight
  {
    if step.MarkChunk? && step.write.chunk.piece !in s.inflight {
      assert s.inflight - {step.write.chunk.piece} == s.inflight;
    }
  }

  /** A piece is with the peer that last reserved or stole it, until its last chunk is marked or the
      torrent is paused. */
  lemma OwnerStep(l: Lengths, lens: seq<nat>, s: State, step: Step, s': State, p: nat, q: Peer)
    requires Wellformed(l, lens, s) && Next(l, lens, s, step, s')
    ensures p in s'.inflight && s'.inflight[p] == q <==>
              || step == Reserve(q, p) || step == Steal(q, p)
              || (p in s.inflight && s.inflight[p] == q && step != Pause && !MarksLast(l, s, step, p)
                  && !((step.Reserve? || step.Steal?) && step.piece == p))
  {
    InflightStep(l, lens, s, step, s');
  }

  /** Which steps queue a piece and which take it from the queue. */
  lemma QueuedStep(l: Lengths, lens: seq<nat>, s: State, step: Step, s': State, p: nat)
    requires Wellformed(l, lens, s) && Next(l, lens, s, step, s') && Wf(l, s'.bits) && p < TotalPieces(l)
    ensures !s.bits.have[p] ==>
              (s'.bits.queue[p] <==>
                 if step.Reselected? then PieceChosen(l, lens, step.only, p)
                 else if step.Reserve? && step.piece == p then false
                 else
                   || s.bits.queue[p] || step == HashFail(p)
                   || (step.PeerDied? && exists c :: c in s.requests[step.peer] && c.piece == p)
                   || (step.Pause? && p in s.inflight))
    ensures s.bits.have[p] ==> (s'.bits.queue[p] <==> s.bits.queue[p] && !(step.Reserve? && step.piece == p))
  {
    if step.Reselected? {
      ReselectQueue(l, lens, step.only, s.bits, TotalPieces(l), p);
    } else {
      OtherQueuedStep(l, lens, s, step, s', p);
    }
  }

  lemma OneQueuedStep(l: Lengths, lens: seq<nat>, s: State, step: Step, s': State)
    requires Wellformed(l, lens, s) && Next(l, lens, s, step, s') && !step.Reselected? && !step.PeerDied? && !step.Pause?
    ensures step.Reserve? || step.HashFail? ==> step.piece < TotalPieces(l)
    ensures s'.bits.queue ==
              if step.Reserve? then s.bits.queue[step.piece := false]
              else if step.HashFail? && !s.bits.have[step.piece] then s.bits.queue[step.piece := true]
              else s.bits.queue
  {
  }

  lemma OtherQueuedStep(l: Lengths, lens: seq<nat>, s: State, step: Step, s': State, p: nat)
    requires Wellformed(l, lens, s) && Next(l, lens, s, step, s') && Wf(l, s'.bits) && p < TotalPieces(l) && !step.Reselected?
    ensures s'.bits.queue[p] <==>
              && !(step.Reserve? && step.piece == p)
              && (s.bits.queue[p]
                  || (!s.bits.have[p]
                      && (step == HashFail(p) || (step.Pause? && p in s.inflight)
                          || (step.PeerDied? && exists c :: c in s.requests[step.peer] && c.piece == p))))
  {
    if step.PeerDied? {
      assert p in PiecesOf(s.requests[step.peer]) <==> exists c :: c in s.requests[step.peer] && c.piece == p;
    } else if !step.Pause? {
      OneQueuedStep(l, lens, s, step, s');
    }
  }

  /** A piece becomes had when it passes a hash check, and selected or not when files are chosen. */
  lemma HadStep(l: Lengths, lens: seq<nat>, s: State, step: Step, s': State, p: nat)
    requires Wellformed(l, lens, s) && Next(l, lens, s, step, s') && Wf(l, s'.bits) && p < TotalPieces(l)
    ensures s'.bits.have[p] <==> s.bits.have[p] || step == HashPass(p)
    ensures s'.bits.selected[p] <==> if step.Reselected? then PieceChosen(l, lens, step.only, p) else s.bits.selected[p]
  {
    HaveSet(l, lens, s, step, s');
    if step.Reselected? {
      ReselectSelected(l, lens, step.only, s.bits, TotalPieces(l), p);
    } else {
      SelectionKept(l, lens, s, step, s');
    }
  }

  lemma HaveSet(l: Lengths, lens: seq<nat>, s: State, step: Step, s': State)
    requires Wellformed(l, lens, s) && Next(l, lens, s, step, s')
    ensures if step.HashPass? then step.piece < |s.bits.have| && s'.bits.have == s.bits.have[step.piece := true]
            else s'.bits.have == s.bits.have
  {
  }

  lemma SelectionKept(l: Lengths, lens: seq<nat>, s: State, step: Step, s': State)
    requires Wellformed(l, lens, s) && Next(l, lens, s, step, s') && !step.Reselected?
    ensures s'.bits.selected == s.bits.selected
  {
  }

  /** Hash checks begin when the last chunk of a piece in flight is marked, and end with their outcome. */
  lemma CheckStep(l: Lengths, lens: seq<nat>, s: State, step: Step, s': State, p: nat)
    requires Wellformed(l, lens, s) && Next(l, lens, s, step, s')
    ensures s'.hashing[p] ==
              if step.Pause? then 0
              else if MarksLast(l, s, step, p) && p in s.inflight then s.hashing[p] + 1
              else if step == HashPass(p) || step == HashFail(p) || step == HashError(p) then s.hashing[p] - 1
              else s.hashing[p]
  {
    HashingStep(l, lens, s, step, s');
    var begins := step.MarkChunk? && MarksLast(l, s, step, step.write.chunk.piece) && step.write.chunk.piece in s.inflight;
    HashingCount(s.hashing, step, begins, p);
  }

  function HashingAfter(before: multiset<nat>, step: Step, begins: bool): multiset<nat> {
    match step
    case MarkChunk(w) => if begins then before + multiset{w.chunk.piece} else before
    case HashPass(p) => before - multiset{p}
    case HashFail(p) => before - multiset{p}
    case HashError(p) => before - multiset{p}
    case Pause => multiset{}
    case _ => before
  }

  lemma HashingCount(before: multiset<nat>, step: Step, begins: bool, p: nat)
    requires step.HashPass? || step.HashFail? || step.HashError? ==> step.piece in before
    ensures HashingAfter(before, step, begins)[p] ==
              if step.Pause? then 0
              else if step.MarkChunk? && begins && step.write.chunk.piece == p then before[p] + 1
              else if step == HashPass(p) || step == HashFail(p) || step == HashError(p) then before[p] - 1
              else before[p]
  {
  }

  lemma HashingStep(l: Lengths, lens: seq<nat>, s: State, step: Step, s': State)
    requires Wellformed(l, lens, s) && Next(l, lens, s, step, s')
    ensures step.HashPass? || step.HashFail? || step.HashError? ==> step.piece in s.hashing
    ensures s'.hashing == HashingAfter(s.hashing, step,
              step.MarkChunk? && MarksLast(l, s, step, step.write.chunk.piece) && step.write.chunk.piece in s.inflight)
  {
  }

  /** A credit is to come from the pass of a hash check until it is given. */
  lemma CreditStep(l: Lengths, lens: seq<nat>, s: State, step: Step, s': State, p: nat)
    requires Wellformed(l, lens, s) && Next(l, lens, s, step, s')
    ensures s'.completing[p] ==
              if step.Pause? then 0
              else if step == HashPass(p) then s.completing[p] + 1
              else if step == Complete(p) then s.completing[p] - 1
              else s.completing[p]
  {
  }

  /** A file's counter grows by its bytes of the credited piece, and by nothing else. */
  lemma CounterStep(l: Lengths, lens: seq<nat>, s: State, step: Step, s': State, i: nat)
    requires Wellformed(l, lens, s) && Next(l, lens, s, step, s') && i < |lens|
    ensures |s'.counters| == |lens|
    ensures s'.counters[i] == s.counters[i] + if step.Complete? then SizeInFile(l, lens, step.piece, i) else 0
  {
  }

  // ---- writes ----

  /** A chunk waits for the ownership check from its receipt on; it is written from the check, if its
      peer owns the piece, until it is marked. */
  lemma WriteStep(l: Lengths, lens: seq<nat>, s: State, step: Step, s': State, w: Write)
    requires Wellformed(l, lens, s) && Next(l, lens, s, step, s')
    ensures s'.arrived[w] ==
              if step.Pause? then 0
              else if step == Receive(w.peer, w.chunk) then s.arrived[w] + 1
              else if step == CheckOwner(w) then s.arrived[w] - 1
              else s.arrived[w]
    ensures s'.writes[w] ==
              if step.Pause? then 0
              else if step == CheckOwner(w) && w.chunk.piece in s.inflight && s.inflight[w.chunk.piece] == w.peer then s.writes[w] + 1
              else if step == MarkChunk(w) then s.writes[w] - 1
              else s.writes[w]
  {
    ArrivedStep(l, lens, s, step, s');
    ArrivedCount(s.arrived, step, s'.arrived, w);
    WritingStep(l, lens, s, step, s');
    WritingCount(s, step, s'.writes, w);
  }

  lemma ArrivedCount(before: multiset<Write>, step: Step, after: multiset<Write>, w: Write)
    requires after == ArrivedAfter(before, step) && (step.CheckOwner? ==> step.write in before)
    ensures after[w] ==
              if step.Pause? then 0
              else if step == Receive(w.peer, w.chunk) then before[w] + 1
              else if step == CheckOwner(w) then before[w] - 1
              else before[w]
  {
  }

  lemma WritingCount(s: State, step: Step, after: multiset<Write>, w: Write)
    requires after == WritingAfter(s, step) && (step.MarkChunk? ==> step.write in s.writes)
    ensures after[w] ==
              if step.Pause? then 0
              else if step == CheckOwner(w) && Owns(s, w) then s.writes[w] + 1
              else if step == MarkChunk(w) then s.writes[w] - 1
              else s.writes[w]
  {
  }

  function ArrivedAfter(before: multiset<Write>, step: Step): multiset<Write> {
    match step
    case Receive(q, c) => before + multiset{Write(q, c)}
    case CheckOwner(w) => before - multiset{w}
    case Pause => multiset{}
    case _ => before
  }

  function WritingAfter(s: State, step: Step): multiset<Write> {
    match step
    case CheckOwner(w) => if Owns(s, w) then s.writes + multiset{w} else s.writes
    case MarkChunk(w) => s.writes - multiset{w}
    case Pause => multiset{}
    case _ => s.writes
  }

  lemma ArrivedStep(l: Lengths, lens: seq<nat>, s: State, step: Step, s': State)
    requires Wellformed(l, lens, s) && Next(l, lens, s, step, s')
    ensures s'.arrived == ArrivedAfter(s.arrived, step) && (step.CheckOwner? ==> step.write in s.arrived)
  {
  }

  lemma WritingStep(l: Lengths, lens: seq<nat>, s: State, step: Step, s': State)
    requires Wellformed(l, lens, s) && Next(l, lens, s, step, s')
    ensures s'.writes == WritingAfter(s, step) && (step.MarkChunk? ==> step.write in s.writes)
  {
  }

  lemma LivenessStep(l: Lengths, lens: seq<nat>, s: State, step: Step, s': State)
    requires Wellformed(l, lens, s) && Next(l, lens, s, step, s')
    ensures s'.live <==> step == Resume || (s.live && step != Pause)
    ensures !s.live ==> step == Resume || step.Reselected?
  {
  }

  // ---- what each step needs ----

  /** When peers can take their steps. */
  lemma PeerStepNeeds(l: Lengths, lens: seq<nat>, s: State, step: Step, s': State)
    requires Wellformed(l, lens, s) && Next(l, lens, s, step, s')
    ensures step.Connect? ==> step.peer !in s.requests
    ensures step.PeerDied? || step.NotNeeded? || step.Request? || step.Receive? || step.Reserve? ==> step.peer in s.requests
    ensures step.Request? ==> IsChunk(l, step.chunk)
    ensures step.Receive? ==> step.chunk in s.requests[step.peer]
    ensures step.Reserve? ==>
              && step.piece < TotalPieces(l)
              && ((s.bits.queue[step.piece] && exists i: nat :: InRange(l, lens, i, step.piece) && s.counters[i] != lens[i])
                  || (!s.bits.have[step.piece] && step.piece !in s.inflight))
    ensures step.Steal? ==>
              && step.piece in s.inflight && s.inflight[step.piece] != step.peer
              && forall w :: w in s.writes ==> w.chunk.piece != step.piece
  {
  }

  /** When disk tasks can take theirs. */
  lemma DiskStepNeeds(l: Lengths, lens: seq<nat>, s: State, step: Step, s': State)
    requires Wellformed(l, lens, s) && Next(l, lens, s, step, s')
    ensures step.CheckOwner? ==> step.write in s.arrived
    ensures step.MarkChunk? ==> step.write in s.writes
    ensures step.HashPass? || step.HashFail? || step.HashError? ==> step.piece in s.hashing
    ensures step.Complete? ==> step.piece in s.completing
  {
  }
}
