/** Whether the download can finish: from which states peers that deliver what is asked of them can
    bring every needed piece. */
module Finishing {
  import opened Lengths
  import opened FileLayout
  import opened PieceBits
  import opened ChunkMarking
  import opened FileCounters
  import opened PieceProtocol
  import opened CounterProtocol
  import opened Completion

  /** The steps of peers that deliver what is asked of them: pieces are taken from the queue or
      stolen, chunks requested, received and written, hashes match and are credited. Nobody dies,
      selects, pauses or streams. */
  ghost predicate Delivers(l: Lengths, lens: seq<nat>, s: State, step: Step)
    requires Wellformed(l, lens, s)
  {
    match step
    case Reserve(_, p) => p < TotalPieces(l) && s.bits.queue[p] && Shown(l, lens, s.counters, p)
    case _ =>
      || step.Connect? || step.Steal? || step.Request? || step.Receive? || step.CheckOwner? || step.MarkChunk?
      || step.HashPass? || step.Complete?
  }

  ghost predicate Leads(l: Lengths, lens: seq<nat>, s: State, steps: seq<Step>, t: State) {
    if steps == [] then s == t
    else
      exists m ::
        && Leads(l, lens, s, steps[..|steps| - 1], m) && Wellformed(l, lens, m)
        && Delivers(l, lens, m, steps[|steps| - 1]) && Next(l, lens, m, steps[|steps| - 1], t)
  }

  /** Delivering peers can bring the torrent from `s` to `t`. */
  ghost predicate CanReach(l: Lengths, lens: seq<nat>, s: State, t: State) {
    exists steps :: Leads(l, lens, s, steps, t)
  }

  ghost predicate Finished(l: Lengths, s: State) {
    Wf(l, s.bits) && forall p: nat :: !NeededPiece(l, s.bits, p)
  }

  /** A credit for piece `r` changes the counter of file `i`, whose range names piece `q`. */
  predicate Shares(l: Lengths, lens: seq<nat>, r: nat, i: nat, q: nat) {
    i < |lens| && SizeInFile(l, lens, r, i) > 0 && InRange(l, lens, i, q)
  }

  /** Piece `q` can be brought to a hash check after at most `n` rounds of credits: it is in one, or
      lacks a chunk and is in flight, or is queued and shown, or is queued in a file whose counter is
      changed by a credit that comes within `n - 1` rounds. */
  ghost predicate Hashable(l: Lengths, lens: seq<nat>, s: State, n: nat, q: nat)
    requires Wellformed(l, lens, s)
    decreases n, 0
  {
    || (q < TotalPieces(l)
        && (q in s.hashing
            || (!PieceFull(l, s.bits.chunks, q)
                && (q in s.inflight
                    || (s.bits.queue[q]
                        && (Shown(l, lens, s.counters, q)
                            || (n > 0 && exists r: nat, i: nat :: Shares(l, lens, r, i, q) && Creditable(l, lens, s, n - 1, r))))))))
    || (n > 0 && Hashable(l, lens, s, n - 1, q))
  }

  /** A credit for `r` can come after at most `n` rounds of other credits. */
  ghost predicate Creditable(l: Lengths, lens: seq<nat>, s: State, n: nat, r: nat)
    requires Wellformed(l, lens, s)
    decreases n, 1
  {
    r in s.completing || Hashable(l, lens, s, n, r)
  }

  /** A needed piece that can never be brought to a hash check. */
  ghost predicate Hopeless(l: Lengths, lens: seq<nat>, s: State, p: nat)
    requires Wellformed(l, lens, s)
  {
    NeededPiece(l, s.bits, p) && forall n: nat :: !Hashable(l, lens, s, n, p)
  }

  ghost predicate Hopeful(l: Lengths, lens: seq<nat>, s: State) {
    Wellformed(l, lens, s) && s.live && forall p: nat :: !Hopeless(l, lens, s, p)
  }

  lemma Stay(l: Lengths, lens: seq<nat>, s: State)
    ensures CanReach(l, lens, s, s)
  {
    assert Leads(l, lens, s, [], s);
  }

  lemma OneMore(l: Lengths, lens: seq<nat>, s: State, m: State, step: Step, t: State)
    requires CanReach(l, lens, s, m) && Wellformed(l, lens, m) && Delivers(l, lens, m, step) && Next(l, lens, m, step, t)
    ensures CanReach(l, lens, s, t)
  {
    var steps :| Leads(l, lens, s, steps, m);
    LeadsOn(l, lens, s, steps, m, step, t);
  }

  lemma LeadsOn(l: Lengths, lens: seq<nat>, s: State, steps: seq<Step>, m: State, step: Step, t: State)
    requires Leads(l, lens, s, steps, m) && Wellformed(l, lens, m) && Delivers(l, lens, m, step) && Next(l, lens, m, step, t)
    ensures Leads(l, lens, s, steps + [step], t)
  {
    var more := steps + [step];
    assert more[..|more| - 1] == steps && more[|more| - 1] == step;
  }

  lemma {:induction false} LeadsThenLeads(l: Lengths, lens: seq<nat>, s: State, m: State, steps: seq<Step>, t: State)
    requires CanReach(l, lens, s, m) && Leads(l, lens, m, steps, t)
    ensures CanReach(l, lens, s, t)
    decreases |steps|
  {
    if steps != [] {
      var last, short := steps[|steps| - 1], steps[..|steps| - 1];
      var u :| && Leads(l, lens, m, short, u) && Wellformed(l, lens, u)
               && Delivers(l, lens, u, last) && Next(l, lens, u, last, t);
      LeadsThenLeads(l, lens, s, m, short, u);
      OneMore(l, lens, s, u, last, t);
    }
  }

  lemma Then(l: Lengths, lens: seq<nat>, s: State, m: State, t: State)
    requires CanReach(l, lens, s, m) && CanReach(l, lens, m, t)
    ensures CanReach(l, lens, s, t)
  {
    var steps :| Leads(l, lens, m, steps, t);
    LeadsThenLeads(l, lens, s, m, steps, t);
  }

  // ---- what delivering steps change ----

  lemma QueueStep(l: Lengths, lens: seq<nat>, s: State, step: Step, t: State, q: nat)
    requires Wellformed(l, lens, s) && Delivers(l, lens, s, step) && Next(l, lens, s, step, t)
    requires Wf(l, t.bits) && q < TotalPieces(l)
    ensures t.bits.queue[q] == (s.bits.queue[q] && !(step.Reserve? && step.piece == q))
  {
  }

  lemma InflightStep(l: Lengths, lens: seq<nat>, s: State, step: Step, t: State, q: nat)
    requires Wellformed(l, lens, s) && Delivers(l, lens, s, step) && Next(l, lens, s, step, t) && q < TotalPieces(l)
    ensures q in t.inflight <==> (step.Reserve? && step.piece == q) || (q in s.inflight && !Completes(l, s, step, q))
  {
  }

  lemma ChecksStep(l: Lengths, lens: seq<nat>, s: State, step: Step, t: State, q: nat)
    requires Wellformed(l, lens, s) && Delivers(l, lens, s, step) && Next(l, lens, s, step, t) && q < TotalPieces(l)
    ensures q in t.hashing ==> q in s.hashing || (Completes(l, s, step, q) && q in s.inflight)
    ensures q in t.completing ==> q in s.completing || (step == HashPass(q) && q in s.hashing)
  {
  }

  lemma FilledStep(l: Lengths, lens: seq<nat>, s: State, step: Step, t: State, q: nat)
    requires Wellformed(l, lens, s) && Delivers(l, lens, s, step) && Next(l, lens, s, step, t)
    requires Wf(l, t.bits) && q < TotalPieces(l)
    ensures PieceFull(l, t.bits.chunks, q) <==> PieceFull(l, s.bits.chunks, q) || Completes(l, s, step, q)
  {
    if step.MarkChunk? {
      MarkFills(l, s.bits.chunks, step.write.chunk.piece, step.write.chunk.index, q);
    } else {
      ChunksKept(l, lens, s, step, t);
    }
  }

  /** The step marks the last chunk of `q`. */
  ghost predicate Completes(l: Lengths, s: State, step: Step, q: nat)
    requires Wf(l, s.bits)
  {
    && step.MarkChunk? && step.write.chunk.piece == q && IsChunk(l, step.write.chunk)
    && Mark(l, s.bits.chunks, q, step.write.chunk.index).1 == Completed
  }

  lemma SelectedStep(l: Lengths, lens: seq<nat>, s: State, step: Step, t: State)
    requires Wellformed(l, lens, s) && Delivers(l, lens, s, step) && Next(l, lens, s, step, t)
    ensures t.bits.selected == s.bits.selected && (!step.Complete? ==> t.counters == s.counters)
  {
  }

  /** Only a credit shows a piece that was not. */
  lemma ShownStep(l: Lengths, lens: seq<nat>, s: State, step: Step, t: State, q: nat)
    requires Wellformed(l, lens, s) && Wellformed(l, lens, t) && Delivers(l, lens, s, step) && Next(l, lens, s, step, t)
    requires Shown(l, lens, t.counters, q) && !Shown(l, lens, s.counters, q)
    ensures step.Complete? && step.piece in s.completing && exists i: nat :: Shares(l, lens, step.piece, i, q)
  {
    SelectedStep(l, lens, s, step, t);
    var i: nat :| InRange(l, lens, i, q) && t.counters[i] != lens[i];
    assert s.counters[i] == lens[i];
    assert Shares(l, lens, step.piece, i, q);
  }

  // ---- what is hopeless stays so ----

  lemma Fed(l: Lengths, lens: seq<nat>, s: State, n: nat, r: nat, i: nat, q: nat)
    requires Wellformed(l, lens, s) && q < TotalPieces(l) && !PieceFull(l, s.bits.chunks, q) && s.bits.queue[q]
    requires Shares(l, lens, r, i, q) && Creditable(l, lens, s, n, r)
    ensures Hashable(l, lens, s, n + 1, q)
  {
  }

  /** What can be brought to a hash check after a delivering step could be before it. */
  lemma {:induction false} HashableBefore(l: Lengths, lens: seq<nat>, s: State, step: Step, t: State, n: nat, q: nat) returns (m: nat)
    requires Wellformed(l, lens, s) && Wellformed(l, lens, t) && Delivers(l, lens, s, step) && Next(l, lens, s, step, t)
    requires Hashable(l, lens, t, n, q)
    ensures Hashable(l, lens, s, m, q)
    decreases n, 0
  {
    if n > 0 && Hashable(l, lens, t, n - 1, q) {
      m := HashableBefore(l, lens, s, step, t, n - 1, q);
    } else {
      PieceFacts(l, lens, s, step, t, q);
      if q in t.hashing || q in t.inflight || Shown(l, lens, s.counters, q) {
        m := 0;
      } else if Shown(l, lens, t.counters, q) {
        ShownStep(l, lens, s, step, t, q);
        var i: nat :| Shares(l, lens, step.piece, i, q);
        assert Creditable(l, lens, s, 0, step.piece);
        Fed(l, lens, s, 0, step.piece, i, q);
        m := 1;
      } else {
        var r: nat, i: nat :| Shares(l, lens, r, i, q) && Creditable(l, lens, t, n - 1, r);
        var k := CreditableBefore(l, lens, s, step, t, n - 1, r);
        Fed(l, lens, s, k, r, i, q);
        m := k + 1;
      }
    }
  }

  lemma {:induction false} CreditableBefore(l: Lengths, lens: seq<nat>, s: State, step: Step, t: State, n: nat, r: nat) returns (k: nat)
    requires Wellformed(l, lens, s) && Wellformed(l, lens, t) && Delivers(l, lens, s, step) && Next(l, lens, s, step, t)
    requires Creditable(l, lens, t, n, r)
    ensures Creditable(l, lens, s, k, r)
    decreases n, 1
  {
    if r in t.completing {
      ChecksStep(l, lens, s, step, t, r);
      k := 0;
    } else {
      k := HashableBefore(l, lens, s, step, t, n, r);
    }
  }

  lemma PieceFacts(l: Lengths, lens: seq<nat>, s: State, step: Step, t: State, q: nat)
    requires Wellformed(l, lens, s) && Wellformed(l, lens, t) && Delivers(l, lens, s, step) && Next(l, lens, s, step, t)
    requires q < TotalPieces(l)
    ensures q in t.hashing ==> Hashable(l, lens, s, 0, q)
    ensures !PieceFull(l, t.bits.chunks, q) ==> !PieceFull(l, s.bits.chunks, q)
    ensures !PieceFull(l, t.bits.chunks, q) && q in t.inflight ==> Hashable(l, lens, s, 0, q)
    ensures t.bits.queue[q] ==> s.bits.queue[q]
  {
    QueueStep(l, lens, s, step, t, q);
    InflightStep(l, lens, s, step, t, q);
    ChecksStep(l, lens, s, step, t, q);
    FilledStep(l, lens, s, step, t, q);
    if Completes(l, s, step, q) { assert !PieceFull(l, s.bits.chunks, q); }
  }

  lemma HopelessStep(l: Lengths, lens: seq<nat>, s: State, step: Step, t: State, p: nat)
    requires Wellformed(l, lens, s) && Delivers(l, lens, s, step) && Next(l, lens, s, step, t) && Hopeless(l, lens, s, p)
    ensures Wellformed(l, lens, t) && Hopeless(l, lens, t, p)
  {
    WellformedStep(l, lens, s, step, t);
    SelectedStep(l, lens, s, step, t);
    assert !Hashable(l, lens, s, 0, p);
    if t.bits.have[p] { PassedHave(l, lens, s, step, t, p); }
    forall n: nat ensures !Hashable(l, lens, t, n, p) {
      if Hashable(l, lens, t, n, p) {
        var m := HashableBefore(l, lens, s, step, t, n, p);
      }
    }
  }

  /** Whatever peers deliver, a hopeless piece stays hopeless. */
  lemma {:induction false} HopelessForever(l: Lengths, lens: seq<nat>, s: State, steps: seq<Step>, t: State, p: nat)
    requires Wellformed(l, lens, s) && Hopeless(l, lens, s, p) && Leads(l, lens, s, steps, t)
    ensures Wellformed(l, lens, t) && Hopeless(l, lens, t, p)
    decreases |steps|
  {
    if steps != [] {
      var last, short := steps[|steps| - 1], steps[..|steps| - 1];
      var m :| && Leads(l, lens, s, short, m) && Wellformed(l, lens, m)
               && Delivers(l, lens, m, last) && Next(l, lens, m, last, t);
      HopelessForever(l, lens, s, short, m, p);
      HopelessStep(l, lens, m, last, t, p);
    }
  }

  // ---- one piece is delivered ----

  lemma PlainStep(l: Lengths, lens: seq<nat>, s: State, m: State, step: Step, t: State)
    requires CanReach(l, lens, s, m) && Wellformed(l, lens, m) && m.live && Delivers(l, lens, m, step) && Next(l, lens, m, step, t)
    ensures CanReach(l, lens, s, t) && Wellformed(l, lens, t) && t.live
  {
    OneMore(l, lens, s, m, step, t);
    WellformedStep(l, lens, m, step, t);
    LiveKept(l, lens, m, step, t);
  }

  lemma LiveKept(l: Lengths, lens: seq<nat>, s: State, step: Step, t: State)
    requires Wellformed(l, lens, s) && Next(l, lens, s, step, t) && s.live && !step.Pause?
    ensures t.live
  {
  }

  /** The requests without one for chunk `c` of `q`. */
  function Answered(requests: map<Peer, set<Chunk>>, q: Peer, c: Chunk): map<Peer, set<Chunk>>
    requires q in requests
  {
    requests[q := requests[q] - {c}]
  }

  /** `s` after its owner delivered one chunk of `p` and the chunk was marked. */
  ghost function AfterChunk(l: Lengths, s: State, p: nat, c: nat): State
    requires Wf(l, s.bits) && p < TotalPieces(l) && c < ChunksPerPiece(l, p)
    requires p in s.inflight && s.inflight[p] in s.requests
  {
    var (chunks, answer) := Mark(l, s.bits.chunks, p, c);
    var t := s.(bits := s.bits.(chunks := chunks), requests := Answered(s.requests, s.inflight[p], Chunk(p, c)));
    if answer == Completed then t.(inflight := s.inflight - {p}, hashing := s.hashing + multiset{p}) else t
  }

  /** The owner of a piece can have any of its chunks requested, received, written and marked. */
  lemma DeliverChunk(l: Lengths, lens: seq<nat>, s: State, p: nat, c: nat)
    requires Wellformed(l, lens, s) && s.live && IsChunk(l, Chunk(p, c))
    requires p in s.inflight && s.inflight[p] in s.requests
    ensures var t := AfterChunk(l, s, p, c); CanReach(l, lens, s, t) && Wellformed(l, lens, t) && t.live
  {
    var w := Write(s.inflight[p], Chunk(p, c));
    ReceiveRequested(l, lens, s, w);
    var s3 := s.(requests := Answered(s.requests, w.peer, w.chunk), writes := s.writes + multiset{w});
    assert s3.writes - multiset{w} == s.writes;
    PlainStep(l, lens, s, s3, MarkChunk(w), AfterChunk(l, s, p, c));
  }

  lemma ReceiveRequested(l: Lengths, lens: seq<nat>, s: State, w: Write)
    requires Wellformed(l, lens, s) && s.live && IsChunk(l, w.chunk) && w.peer in s.requests && Owns(s, w)
    ensures var t := s.(requests := Answered(s.requests, w.peer, w.chunk), writes := s.writes + multiset{w});
            CanReach(l, lens, s, t) && Wellformed(l, lens, t) && t.live
  {
    var answered := Answered(s.requests, w.peer, w.chunk);
    var s1 := s.(requests := s.requests[w.peer := s.requests[w.peer] + {w.chunk}]);
    var s2 := s.(requests := answered, arrived := s.arrived + multiset{w});
    Stay(l, lens, s);
    PlainStep(l, lens, s, s, Request(w.peer, w.chunk), s1);
    assert s1.requests[w.peer] - {w.chunk} == s.requests[w.peer] - {w.chunk};
    assert s1.requests[w.peer := s1.requests[w.peer] - {w.chunk}] == answered;
    PlainStep(l, lens, s, s1, Receive(w.peer, w.chunk), s2);
    assert s2.arrived - multiset{w} == s.arrived;
    PlainStep(l, lens, s, s2, CheckOwner(w), s.(requests := answered, writes := s.writes + multiset{w}));
  }

  /** The chunks of `p` still missing. */
  ghost function Missing(l: Lengths, chunks: seq<bool>, p: nat): set<nat>
    requires |chunks| >= TotalChunks(l) && p < TotalPieces(l)
  {
    set c | 0 <= c < ChunksPerPiece(l, p) && !HasChunk(l, chunks, p, c)
  }

  lemma MarkMissing(l: Lengths, chunks: seq<bool>, p: nat) returns (c: nat)
    requires |chunks| >= TotalChunks(l) && p < TotalPieces(l) && !PieceFull(l, chunks, p)
    ensures c < ChunksPerPiece(l, p)
    ensures |Missing(l, Mark(l, chunks, p, c).0, p)| < |Missing(l, chunks, p)|
    ensures Mark(l, chunks, p, c).1 != PreviouslyCompleted
  {
    FullIsAll(l, chunks, p);
    c :| c < ChunksPerPiece(l, p) && c !in Received(l, chunks, p);
    EventEffect(l, chunks, Arrive(p, c), p);
    assert c in Missing(l, chunks, p);
    var chunks' := Mark(l, chunks, p, c).0;
    forall d | 0 <= d < ChunksPerPiece(l, p) ensures HasChunk(l, chunks', p, d) <==> HasChunk(l, chunks, p, d) || d == c {
      assert d in Received(l, chunks', p) <==> d in Received(l, chunks, p) || d == c;
    }
    assert Missing(l, chunks', p) == Missing(l, chunks, p) - {c};
  }

  /** From `s` to `t` only piece `p` made progress. */
  ghost predicate Around(l: Lengths, s: State, t: State, p: nat)
    requires Wf(l, s.bits) && Wf(l, t.bits)
  {
    && t.bits.have == s.bits.have && t.bits.selected == s.bits.selected && t.bits.queue == s.bits.queue
    && t.counters == s.counters && t.completing == s.completing
    && forall q: nat :: q < TotalPieces(l) && q != p ==>
         && (q in t.inflight <==> q in s.inflight) && (q in t.hashing <==> q in s.hashing)
         && (PieceFull(l, t.bits.chunks, q) <==> PieceFull(l, s.bits.chunks, q))
  }

  lemma AroundChunk(l: Lengths, s: State, p: nat, c: nat)
    requires Wf(l, s.bits) && IsChunk(l, Chunk(p, c)) && p in s.inflight && s.inflight[p] in s.requests
    ensures Around(l, s, AfterChunk(l, s, p, c), p)
  {
    forall q: nat | q < TotalPieces(l) && q != p
      ensures PieceFull(l, AfterChunk(l, s, p, c).bits.chunks, q) <==> PieceFull(l, s.bits.chunks, q)
    {
      MarkFills(l, s.bits.chunks, p, c, q);
    }
  }

  /** Where a piece in flight stands: it is being hashed, or it lacks a chunk. */
  ghost predicate Underway(l: Lengths, s: State, p: nat)
    requires Wf(l, s.bits)
  {
    p < TotalPieces(l) && p in s.inflight && !PieceFull(l, s.bits.chunks, p)
  }

  /** The piece has been completed and is being hashed. */
  ghost predicate Done(l: Lengths, s: State, p: nat)
    requires Wf(l, s.bits)
  {
    p < TotalPieces(l) && p in s.hashing && PieceFull(l, s.bits.chunks, p)
  }

  /** A live owner can deliver the rest of its piece. */
  lemma {:induction false} FillRest(l: Lengths, lens: seq<nat>, s: State, p: nat) returns (t: State)
    requires Wellformed(l, lens, s) && s.live && Underway(l, s, p) && s.inflight[p] in s.requests
    ensures CanReach(l, lens, s, t) && Wellformed(l, lens, t) && t.live && Around(l, s, t, p) && Done(l, t, p)
    decreases |Missing(l, s.bits.chunks, p)|
  {
    var c := MarkMissing(l, s.bits.chunks, p);
    DeliverChunk(l, lens, s, p, c);
    AroundChunk(l, s, p, c);
    MarkFills(l, s.bits.chunks, p, c, p);
    var m := AfterChunk(l, s, p, c);
    if Mark(l, s.bits.chunks, p, c).1 == Completed {
      t := m;
    } else {
      t := FillRest(l, lens, m, p);
      Then(l, lens, s, m, t);
    }
  }

  /** Writes under way can be marked, until none holds the lock of `p` or one completes it. */
  lemma {:induction false} DrainWrites(l: Lengths, lens: seq<nat>, s: State, p: nat) returns (t: State)
    requires Wellformed(l, lens, s) && s.live && Underway(l, s, p)
    ensures CanReach(l, lens, s, t) && Wellformed(l, lens, t) && t.live && Around(l, s, t, p)
    ensures Done(l, t, p) || (Underway(l, t, p) && forall w :: w in t.writes ==> w.chunk.piece != p)
    decreases |s.writes|
  {
    Stay(l, lens, s);
    if w :| w in s.writes && w.chunk.piece == p {
      var m := AfterWrite(l, s, w);
      PlainStep(l, lens, s, s, MarkChunk(w), m);
      AroundWrite(l, s, w);
      if Mark(l, s.bits.chunks, p, w.chunk.index).1 == Completed {
        t := m;
      } else {
        t := DrainWrites(l, lens, m, p);
        Then(l, lens, s, m, t);
      }
    } else {
      t := s;
    }
  }

  /** `s` after a write of a piece in flight was marked. */
  ghost function AfterWrite(l: Lengths, s: State, w: Write): State
    requires Wf(l, s.bits) && IsChunk(l, w.chunk)
  {
    var (chunks, answer) := Mark(l, s.bits.chunks, w.chunk.piece, w.chunk.index);
    var t := s.(bits := s.bits.(chunks := chunks), writes := s.writes - multiset{w});
    if answer == Completed
    then t.(inflight := s.inflight - {w.chunk.piece}, hashing := s.hashing + multiset{w.chunk.piece}) else t
  }

  lemma AroundWrite(l: Lengths, s: State, w: Write)
    requires Wf(l, s.bits) && IsChunk(l, w.chunk) && Underway(l, s, w.chunk.piece)
    ensures Around(l, s, AfterWrite(l, s, w), w.chunk.piece)
    ensures if Mark(l, s.bits.chunks, w.chunk.piece, w.chunk.index).1 == Completed
            then Done(l, AfterWrite(l, s, w), w.chunk.piece) else Underway(l, AfterWrite(l, s, w), w.chunk.piece)
  {
    forall q: nat | q < TotalPieces(l)
      ensures PieceFull(l, AfterWrite(l, s, w).bits.chunks, q) <==>
                || PieceFull(l, s.bits.chunks, q)
                || (q == w.chunk.piece && Mark(l, s.bits.chunks, q, w.chunk.index).1 == Completed)
    {
      MarkFills(l, s.bits.chunks, w.chunk.piece, w.chunk.index, q);
    }
  }

  lemma {:induction false} FreshPeer(used: set<nat>) returns (q: nat)
    ensures forall x :: x in used ==> x < q
  {
    if used == {} {
      q := 0;
    } else {
      var x :| x in used;
      var r := FreshPeer(used - {x});
      assert used == (used - {x}) + {x};
      q := if r > x then r else x + 1;
    }
  }

  /** A fresh peer connects. */
  lemma Join(l: Lengths, lens: seq<nat>, s: State) returns (q: Peer, t: State)
    requires Wellformed(l, lens, s) && s.live
    ensures q !in s.requests && q !in s.inflight.Values && t == s.(requests := s.requests[q := {}])
    ensures CanReach(l, lens, s, t) && Wellformed(l, lens, t)
  {
    q := FreshPeer(s.requests.Keys + s.inflight.Values);
    t := s.(requests := s.requests[q := {}]);
    Stay(l, lens, s);
    PlainStep(l, lens, s, s, Connect(q), t);
  }

  /** A piece whose owner is gone can be stolen. */
  lemma Adopt(l: Lengths, lens: seq<nat>, s: State, p: nat) returns (t: State)
    requires Wellformed(l, lens, s) && s.live && Underway(l, s, p) && forall w :: w in s.writes ==> w.chunk.piece != p
    ensures CanReach(l, lens, s, t) && Wellformed(l, lens, t) && t.live && Around(l, s, t, p)
    ensures Underway(l, t, p) && t.inflight[p] in t.requests
  {
    var q, m := Join(l, lens, s);
    assert s.inflight[p] in s.inflight.Values;
    t := m.(inflight := s.inflight[p := q]);
    PlainStep(l, lens, s, m, Steal(q, p), t);
  }

  /** A piece in flight that lacks a chunk can be brought to the hash check: by its owner if that one
      is live, else by a peer that steals it once nobody is writing it. */
  lemma BringToHash(l: Lengths, lens: seq<nat>, s: State, p: nat) returns (t: State)
    requires Wellformed(l, lens, s) && s.live && Underway(l, s, p)
    ensures CanReach(l, lens, s, t) && Wellformed(l, lens, t) && t.live && Around(l, s, t, p) && Done(l, t, p)
  {
    if s.inflight[p] in s.requests {
      t := FillRest(l, lens, s, p);
    } else {
      t := DrainWrites(l, lens, s, p);
      if !Done(l, t, p) {
        var m := Adopt(l, lens, t, p);
        Then(l, lens, s, t, m);
        t := FillRest(l, lens, m, p);
        Then(l, lens, s, m, t);
      }
    }
  }

  // ---- everything is delivered ----

  /** Nothing that could be brought to a hash check in `s` is farther from it in `t`, except had pieces
      whose credit is pending. */
  ghost predicate NoWorse(l: Lengths, s: State, t: State)
    requires Wf(l, s.bits) && Wf(l, t.bits)
  {
    && t.counters == s.counters && t.bits.selected == s.bits.selected
    && (forall q: nat :: q in s.completing ==> q in t.completing)
    && forall q: nat :: q < TotalPieces(l) ==> NoWorseAt(l, s, t, q)
  }

  ghost predicate NoWorseAt(l: Lengths, s: State, t: State, q: nat)
    requires Wf(l, s.bits) && Wf(l, t.bits) && q < TotalPieces(l)
  {
    && (s.bits.have[q] ==> t.bits.have[q])
    && (q in s.hashing ==> q in t.hashing || (q in t.completing && t.bits.have[q]))
    && (!PieceFull(l, s.bits.chunks, q) && (q in s.inflight || s.bits.queue[q]) ==>
          || q in t.hashing
          || (!PieceFull(l, t.bits.chunks, q) && (q in t.inflight || (t.bits.queue[q] && q !in s.inflight))))
  }

  lemma {:induction false} StillHashable(l: Lengths, lens: seq<nat>, s: State, t: State, n: nat, q: nat)
    requires Wellformed(l, lens, s) && Wellformed(l, lens, t) && NoWorse(l, s, t) && Hashable(l, lens, s, n, q)
    ensures Hashable(l, lens, t, n, q) || (q in t.completing && t.bits.have[q])
    decreases n
  {
    if n > 0 && Hashable(l, lens, s, n - 1, q) {
      StillHashable(l, lens, s, t, n - 1, q);
    } else {
      assert NoWorseAt(l, s, t, q);
      if q !in s.hashing && q !in s.inflight && !Shown(l, lens, s.counters, q) {
        var r: nat, i: nat :| Shares(l, lens, r, i, q) && Creditable(l, lens, s, n - 1, r);
        if r !in s.completing { StillHashable(l, lens, s, t, n - 1, r); }
        assert Creditable(l, lens, t, n - 1, r);
      }
    }
  }

  lemma StillHopeful(l: Lengths, lens: seq<nat>, s: State, t: State)
    requires Hopeful(l, lens, s) && Wellformed(l, lens, t) && t.live && NoWorse(l, s, t)
    ensures Hopeful(l, lens, t)
  {
    forall p: nat ensures !Hopeless(l, lens, t, p) {
      if NeededPiece(l, t.bits, p) {
        assert NoWorseAt(l, s, t, p);
        assert !Hopeless(l, lens, s, p);
        var n: nat :| Hashable(l, lens, s, n, p);
        StillHashable(l, lens, s, t, n, p);
      }
    }
  }

  /** Queued, shown and lacking a chunk. */
  ghost predicate OnOffer(l: Lengths, lens: seq<nat>, s: State, q: nat)
    requires Wellformed(l, lens, s)
  {
    q < TotalPieces(l) && s.bits.queue[q] && Shown(l, lens, s.counters, q) && !PieceFull(l, s.bits.chunks, q)
  }

  /** A credit given when nothing is on offer keeps every piece hashable that was: a file whose counter
      it changes is shown from then on. */
  lemma {:induction false} HashableAfterCredit(l: Lengths, lens: seq<nat>, s: State, x: nat, t: State, n: nat, q: nat) returns (m: nat)
    requires Wellformed(l, lens, s) && Wellformed(l, lens, t) && Next(l, lens, s, Complete(x), t)
    requires (forall r: nat :: !OnOffer(l, lens, s, r)) && Hashable(l, lens, s, n, q)
    ensures Hashable(l, lens, t, m, q)
    decreases n
  {
    if n > 0 && Hashable(l, lens, s, n - 1, q) {
      m := HashableAfterCredit(l, lens, s, x, t, n - 1, q);
    } else if q in s.hashing || (q in s.inflight && !PieceFull(l, s.bits.chunks, q)) {
      m := 0;
    } else {
      assert !OnOffer(l, lens, s, q);
      var r: nat, i: nat :| Shares(l, lens, r, i, q) && Creditable(l, lens, s, n - 1, r);
      assert s.counters[i] == lens[i];
      if SizeInFile(l, lens, x, i) > 0 {
        assert t.counters[i] != lens[i] && Shown(l, lens, t.counters, q);
        m := 0;
      } else {
        var k := 0;
        if r !in s.completing { k := HashableAfterCredit(l, lens, s, x, t, n - 1, r); }
        assert Creditable(l, lens, t, k, r);
        Fed(l, lens, t, k, r, i, q);
        m := k + 1;
      }
    }
  }

  lemma CreditKeepsHope(l: Lengths, lens: seq<nat>, s: State, x: nat, t: State)
    requires Hopeful(l, lens, s) && Next(l, lens, s, Complete(x), t) && forall q: nat :: !OnOffer(l, lens, s, q)
    ensures Hopeful(l, lens, t)
  {
    WellformedStep(l, lens, s, Complete(x), t);
    forall p: nat ensures !Hopeless(l, lens, t, p) {
      if NeededPiece(l, t.bits, p) {
        assert !Hopeless(l, lens, s, p);
        var n: nat :| Hashable(l, lens, s, n, p);
        var m := HashableAfterCredit(l, lens, s, x, t, n, p);
      }
    }
  }

  ghost function Queued(l: Lengths, b: Bits): set<nat>
    requires Wf(l, b)
  {
    set q: nat | q < TotalPieces(l) && b.queue[q]
  }

  ghost function Lacking(l: Lengths, b: Bits): set<nat>
    requires Wf(l, b)
  {
    set q: nat | q < TotalPieces(l) && !PieceFull(l, b.chunks, q)
  }

  /** What is on offer can be reserved. */
  lemma ReserveOne(l: Lengths, lens: seq<nat>, s: State, p: nat) returns (t: State)
    requires Hopeful(l, lens, s) && OnOffer(l, lens, s, p)
    ensures CanReach(l, lens, s, t) && Hopeful(l, lens, t) && Queued(l, t.bits) == Queued(l, s.bits) - {p}
  {
    var q, m := Join(l, lens, s);
    t := m.(bits := s.bits.(queue := s.bits.queue[p := false]), inflight := s.inflight[p := q]);
    PlainStep(l, lens, s, m, Reserve(q, p), t);
    ReserveNoWorse(l, s, p, t);
    StillHopeful(l, lens, s, t);
  }

  lemma ReserveNoWorse(l: Lengths, s: State, p: nat, t: State)
    requires Wf(l, s.bits) && p < TotalPieces(l) && t.bits == s.bits.(queue := s.bits.queue[p := false])
    requires t.inflight.Keys == s.inflight.Keys + {p} && t.hashing == s.hashing
    requires t.completing == s.completing && t.counters == s.counters
    ensures NoWorse(l, s, t)
  {
    forall q: nat | q < TotalPieces(l) ensures NoWorseAt(l, s, t, q) {}
  }

  lemma FillOne(l: Lengths, lens: seq<nat>, s: State, p: nat) returns (t: State)
    requires Hopeful(l, lens, s) && Underway(l, s, p)
    ensures CanReach(l, lens, s, t) && Hopeful(l, lens, t)
    ensures Queued(l, t.bits) == Queued(l, s.bits) && Lacking(l, t.bits) == Lacking(l, s.bits) - {p}
  {
    t := BringToHash(l, lens, s, p);
    forall q: nat | q < TotalPieces(l) ensures NoWorseAt(l, s, t, q) {}
    StillHopeful(l, lens, s, t);
  }

  lemma PassOne(l: Lengths, lens: seq<nat>, s: State, p: nat) returns (t: State)
    requires Hopeful(l, lens, s) && p in s.hashing
    ensures CanReach(l, lens, s, t) && Hopeful(l, lens, t)
    ensures Queued(l, t.bits) == Queued(l, s.bits) && Lacking(l, t.bits) == Lacking(l, s.bits)
    ensures |t.hashing| < |s.hashing|
  {
    t := s.(bits := s.bits.(have := s.bits.have[p := true]), hashing := s.hashing - multiset{p},
            completing := s.completing + multiset{p});
    Stay(l, lens, s);
    PlainStep(l, lens, s, s, HashPass(p), t);
    forall q: nat | q < TotalPieces(l) ensures NoWorseAt(l, s, t, q) {}
    StillHopeful(l, lens, s, t);
  }

  lemma CreditNext(l: Lengths, lens: seq<nat>, s: State, p: nat) returns (t: State)
    requires Hopeful(l, lens, s) && p in s.completing && forall q: nat :: !OnOffer(l, lens, s, q)
    ensures CanReach(l, lens, s, t) && Hopeful(l, lens, t)
    ensures t.bits == s.bits && t.hashing == s.hashing && |t.completing| < |s.completing|
  {
    t := s.(counters := Credited(l, lens, s.counters, p), completing := s.completing - multiset{p});
    Stay(l, lens, s);
    PlainStep(l, lens, s, s, Complete(p), t);
    CreditKeepsHope(l, lens, s, p, t);
  }

  /** With nothing on offer, in flight and lacking a chunk, being hashed or to be credited, nothing
      can be brought to a hash check. */
  lemma {:induction false} NothingLeft(l: Lengths, lens: seq<nat>, s: State, n: nat, q: nat)
    requires Wellformed(l, lens, s) && s.hashing == multiset{} && s.completing == multiset{}
    requires forall p: nat :: !OnOffer(l, lens, s, p) && !Underway(l, s, p)
    ensures !Hashable(l, lens, s, n, q)
    decreases n
  {
    assert !OnOffer(l, lens, s, q) && !Underway(l, s, q);
    if n > 0 {
      NothingLeft(l, lens, s, n - 1, q);
      if r: nat, i: nat :| Shares(l, lens, r, i, q) && Creditable(l, lens, s, n - 1, r) {
        NothingLeft(l, lens, s, n - 1, r);
      }
    }
  }

  /** From every hopeful state delivering peers can finish the download: everything on offer is
      reserved and delivered before another credit is given. */
  lemma {:induction false} DownloadCanFinish(l: Lengths, lens: seq<nat>, s: State) returns (t: State)
    requires Hopeful(l, lens, s)
    ensures CanReach(l, lens, s, t) && Finished(l, t)
    decreases |Queued(l, s.bits)|, |Lacking(l, s.bits)|, |s.hashing|, |s.completing|
  {
    var m := s;
    if p: nat :| OnOffer(l, lens, s, p) {
      m := ReserveOne(l, lens, s, p);
      assert p in Queued(l, s.bits);
    } else if p: nat :| Underway(l, s, p) {
      m := FillOne(l, lens, s, p);
      assert p in Lacking(l, s.bits);
    } else if p :| p in s.hashing {
      m := PassOne(l, lens, s, p);
    } else if p :| p in s.completing {
      m := CreditNext(l, lens, s, p);
    } else {
      Stay(l, lens, s);
      forall p: nat ensures !NeededPiece(l, s.bits, p) {
        assert !Hopeless(l, lens, s, p);
        forall n: nat ensures !Hashable(l, lens, s, n, p) { NothingLeft(l, lens, s, n, p); }
      }
      return s;
    }
    t := DownloadCanFinish(l, lens, m);
    Then(l, lens, s, m, t);
  }

  /** Delivering peers can finish the download if and only if no piece is hopeless. */
  lemma CanFinishIff(l: Lengths, lens: seq<nat>, s: State)
    requires Wellformed(l, lens, s) && s.live
    ensures (exists t :: CanReach(l, lens, s, t) && Finished(l, t)) <==> forall p: nat :: !Hopeless(l, lens, s, p)
  {
    if p: nat :| Hopeless(l, lens, s, p) {
      forall t | CanReach(l, lens, s, t) ensures !Finished(l, t) {
        var steps :| Leads(l, lens, s, steps, t);
        HopelessForever(l, lens, s, steps, t, p);
      }
    } else {
      var t := DownloadCanFinish(l, lens, s);
    }
  }

  /** Needed pieces that are covered, not stuck and not hidden by the counters are not hopeless. */
  lemma NothingHopeless(l: Lengths, lens: seq<nat>, s: State)
    requires Wellformed(l, lens, s) && Covered(l, s) && NoneStuck(l, s) && NotOver(l, lens, s) && TotalLength(lens) == l.total
    ensures forall p: nat :: !Hopeless(l, lens, s, p)
  {
    forall p: nat ensures !Hopeless(l, lens, s, p) {
      if NeededPiece(l, s.bits, p) {
        assert !Stuck(l, s, p);
        MissingIsShown(l, lens, s, p);
        assert Hashable(l, lens, s, 0, p);
      }
    }
  }

  /** In every run without a losing step, a step that leaves a piece stuck, or a second pass of a had
      piece, pauses and resumes included, the download can finish from every live state. */
  lemma EveryRunCanFinish(l: Lengths, lens: seq<nat>, states: seq<State>, steps: seq<Step>, n: nat) returns (t: State)
    requires Run(l, lens, states, steps) && n <= |steps| && TotalLength(lens) == l.total && states[n].live
    requires forall k :: 0 <= k < n ==>
               !Loses(l, states[k], steps[k]) && !MakesStuck(l, states[k], steps[k]) && !Repass(l, states[k], steps[k])
    ensures CanReach(l, lens, states[n], t) && Finished(l, t)
  {
    NoNeededPieceLost(l, lens, states, steps, n);
    FullPiecesAreHashed(l, lens, states, steps, n);
    NeverOver(l, lens, states, steps, n);
    NothingHopeless(l, lens, states[n]);
    t := DownloadCanFinish(l, lens, states[n]);
  }
}
