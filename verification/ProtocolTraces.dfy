/** Runs of the protocol that show why its guarantees carry the conditions they do: on a torrent of
    one file, one piece and one chunk, and on one of two pieces of one chunk. */
module ProtocolTraces {
  import opened Lengths
  import opened FileLayout
  import opened PieceBits
  import opened ChunkMarking
  import opened FileCounters
  import opened PieceQueue
  import opened PieceProtocol
  import opened Completion
  import opened Finishing

  /** Some run ends in `s`. */
  ghost predicate Reachable(l: Lengths, lens: seq<nat>, s: State) {
    exists states, steps :: RunTo(l, lens, states, steps, s)
  }

  ghost predicate RunTo(l: Lengths, lens: seq<nat>, states: seq<State>, steps: seq<Step>, s: State) {
    Run(l, lens, states, steps) && states[|steps|] == s && Wellformed(l, lens, s)
  }

  lemma ReachInit(l: Lengths, lens: seq<nat>, s: State)
    requires Init(l, lens, s)
    ensures Reachable(l, lens, s) && Wellformed(l, lens, s)
  {
    assert RunTo(l, lens, [s], [], s);
  }

  lemma ReachStep(l: Lengths, lens: seq<nat>, s: State, step: Step, s': State)
    requires Reachable(l, lens, s) && Wellformed(l, lens, s) && Next(l, lens, s, step, s')
    ensures Reachable(l, lens, s') && Wellformed(l, lens, s')
  {
    var states, steps :| RunTo(l, lens, states, steps, s);
    WellformedStep(l, lens, s, step, s');
    var states', steps' := states + [s'], steps + [step];
    forall k | 0 <= k < |steps'|
      ensures Wellformed(l, lens, states'[k]) && Next(l, lens, states'[k], steps'[k], states'[k + 1])
    {
      if k < |steps| { assert states'[k + 1] == states[k + 1] && steps'[k] == steps[k]; }
    }
    assert RunTo(l, lens, states', steps', s');
  }

  lemma {:induction false} ReachLeads(l: Lengths, lens: seq<nat>, s: State, steps: seq<Step>, t: State)
    requires Reachable(l, lens, s) && Wellformed(l, lens, s) && Leads(l, lens, s, steps, t)
    ensures Reachable(l, lens, t) && Wellformed(l, lens, t)
    decreases |steps|
  {
    if steps != [] {
      var last, short := steps[|steps| - 1], steps[..|steps| - 1];
      var m :| && Leads(l, lens, s, short, m) && Wellformed(l, lens, m)
               && Delivers(l, lens, m, last) && Next(l, lens, m, last, t);
      ReachLeads(l, lens, s, short, m);
      ReachStep(l, lens, m, last, t);
    }
  }

  /** Where delivering peers can bring a reachable state is reachable. */
  lemma ReachOn(l: Lengths, lens: seq<nat>, s: State, t: State)
    requires Reachable(l, lens, s) && Wellformed(l, lens, s) && CanReach(l, lens, s, t)
    ensures Reachable(l, lens, t) && Wellformed(l, lens, t)
  {
    var steps :| Leads(l, lens, s, steps, t);
    ReachLeads(l, lens, s, steps, t);
  }

  /** One piece of one chunk, in one file. */
  predicate Tiny(l: Lengths) {
    TotalPieces(l) == 1 && ChunksPerPiece(l, 0) == 1 && ChunkBit(l, 0, 0) == 0 && TotalChunks(l) == 1
  }

  /** Every torrent of at most one chunk, with pieces as long as the torrent, is tiny. */
  lemma OneChunkIsTiny(l: Lengths)
    requires l.pieceLen == l.total <= CHUNK_SIZE
    ensures Tiny(l)
  {
    var n := TotalPieces(l);
    if n > 1 { MulMonotone(1, n - 1, l.pieceLen); }
    assert PieceLength(l, 0) == l.total;
    assert DefaultChunksPerPiece(l) == 1 && ChunksPerPiece(l, 0) == 1;
    assert ChunkBit(l, 0, 1) == 1;
  }

  const CHUNK: Chunk := Chunk(0, 0)
  const WRITE: Write := Write(7, CHUNK)

  /** A live state some run ends in. */
  ghost predicate Fine(l: Lengths, lens: seq<nat>, s: State) {
    Reachable(l, lens, s) && Wellformed(l, lens, s) && s.live
  }

  lemma FineStep(l: Lengths, lens: seq<nat>, s: State, step: Step, t: State)
    requires Fine(l, lens, s) && Next(l, lens, s, step, t) && !step.Pause?
    ensures Fine(l, lens, t)
  {
    ReachStep(l, lens, s, step, t);
    LiveKept(l, lens, s, step, t);
  }

  /** A chunk requested from the owner of its piece arrives, and its write begins. */
  lemma FineWrite(l: Lengths, lens: seq<nat>, s: State, w: Write)
    requires Fine(l, lens, s) && w.peer in s.requests && s.requests[w.peer] == {} && Owns(s, w) && IsChunk(l, w.chunk)
    ensures Fine(l, lens, s.(writes := s.writes + multiset{w}))
  {
    NoneToAnswer(s.requests, w.peer, w.chunk);
    ReceiveRequested(l, lens, s, w);
    ReachOn(l, lens, s, s.(requests := Answered(s.requests, w.peer, w.chunk), writes := s.writes + multiset{w}));
  }

  lemma NoneToAnswer(requests: map<Peer, set<Chunk>>, q: Peer, c: Chunk)
    requires q in requests && requests[q] == {}
    ensures Answered(requests, q, c) == requests
  {
    assert requests[q] - {c} == requests[q];
  }

  /** The same, and the write is marked. */
  lemma FineChunk(l: Lengths, lens: seq<nat>, s: State, p: nat, c: nat)
    requires Fine(l, lens, s) && p in s.inflight && s.inflight[p] in s.requests && IsChunk(l, Chunk(p, c))
    ensures Fine(l, lens, AfterChunk(l, s, p, c))
  {
    DeliverChunk(l, lens, s, p, c);
    ReachOn(l, lens, s, AfterChunk(l, s, p, c));
  }

  lemma {:induction false} NothingHad(l: Lengths, lens: seq<nat>, have: seq<bool>, i: nat, n: nat)
    requires i < |lens| && n <= |have| && forall p :: 0 <= p < n ==> !have[p]
    ensures HadInFile(l, lens, have, i, n) == 0
  {
    if n > 0 { NothingHad(l, lens, have, i, n - 1); }
  }

  /** A pause while nothing is in flight, and a resume. */
  lemma ReachIdle(l: Lengths, lens: seq<nat>, s: State)
    requires Reachable(l, lens, s) && Wellformed(l, lens, s) && s.live && s.inflight == map[]
    ensures Reachable(l, lens, Idle(s.bits, s.counters, true)) && Wellformed(l, lens, Idle(s.bits, s.counters, true))
  {
    var paused := Idle(s.bits, s.counters, false);
    assert s.inflight.Keys == {};
    assert Broken(l, s.bits, {}, paused.bits);
    ReachStep(l, lens, s, Pause, paused);
    ReachStep(l, lens, paused, Resume, paused.(live := true));
  }

  // ---- one piece ----

  function At(queued: bool, chunk: bool, inflight: map<nat, Peer>, requests: map<Peer, set<Chunk>>): State {
    Idle(Bits([queued], [chunk], [false], [true]), [0], true).(inflight := inflight, requests := requests)
  }

  function Writing(): State {
    At(false, false, map[0 := 7], map[7 := {}]).(writes := multiset{WRITE})
  }

  function Hashing(): State { At(false, true, map[], map[7 := {}]).(hashing := multiset{0}) }

  lemma MarkOnly(l: Lengths)
    requires Tiny(l)
    ensures Mark(l, [false], 0, 0) == ([true], Completed) && !PieceFull(l, [false], 0) && PieceFull(l, [true], 0)
  {
    assert !HasChunk(l, [false], 0, 0);
    assert [false][0 := true] == [true];
  }

  lemma StartFine(l: Lengths)
    requires Tiny(l)
    ensures Fine(l, [l.total], At(true, false, map[], map[]))
  {
    var lens := [l.total];
    assert Needed([false], [true]) == [true];
    NothingHad(l, lens, [false], 0, 1);
    assert Accurate(l, lens, [false]) == [0];
    ReachInit(l, lens, At(true, false, map[], map[]));
  }

  /** Peer 7 connects, reserves the piece, requests its chunk, and the chunk is being written. */
  lemma WritingFine(l: Lengths)
    requires Tiny(l)
    ensures Fine(l, [l.total], Writing())
  {
    StartFine(l);
    var lens := [l.total];
    var s1, s2 := At(true, false, map[], map[7 := {}]), At(false, false, map[0 := 7], map[7 := {}]);
    FineStep(l, lens, At(true, false, map[], map[]), Connect(7), s1);
    FineStep(l, lens, s1, Reserve(7, 0), s2);
    FineWrite(l, lens, s2, WRITE);
    assert s2.(writes := s2.writes + multiset{WRITE}) == Writing();
  }

  /** The write is marked, which completes the piece: it is being hashed. */
  lemma HashingReachable(l: Lengths)
    requires Tiny(l)
    ensures Reachable(l, [l.total], Hashing()) && Wellformed(l, [l.total], Hashing())
  {
    WritingFine(l);
    MarkOnly(l);
    assert Writing().inflight - {0} == map[];
    ReachStep(l, [l.total], Writing(), MarkChunk(WRITE), Hashing());
  }

  /** A pause during the hash check loses the piece: it is needed, yet after the resume it is
      neither queued nor in flight nor being hashed. */
  lemma PauseCanLose(l: Lengths) returns (s: State)
    requires Tiny(l)
    ensures Reachable(l, [l.total], s) && Wellformed(l, [l.total], s) && s.live && Lost(l, s, 0)
  {
    HashingReachable(l);
    ReachIdle(l, [l.total], Hashing());
    s := Idle(Hashing().bits, [0], true);
  }

  /** So does an I/O error in the hash check. */
  lemma HashErrorCanLose(l: Lengths) returns (s: State)
    requires Tiny(l)
    ensures Reachable(l, [l.total], s) && Wellformed(l, [l.total], s) && s.live && Lost(l, s, 0)
  {
    HashingReachable(l);
    s := Hashing().(hashing := multiset{});
    ReachStep(l, [l.total], Hashing(), HashError(0), s);
  }

  /** Peer 8 has taken over the piece that peer 7 is still writing. */
  function TakenOver(): State {
    At(false, false, map[0 := 8], map[7 := {}, 8 := {}]).(writes := multiset{WRITE})
  }

  lemma ReselectOnly(l: Lengths)
    requires Tiny(l)
    ensures Reselect(l, [l.total], {0}, Bits([false], [false], [false], [true]), 1)
            == Bits([true], [false], [false], [true])
  {
    var lens := [l.total];
    assert PieceLength(l, 0) > 0;
    assert InFile(lens, 0, 0) && ChosenByte(lens, {0}, 0);
    assert PieceChosen(l, lens, {0}, 0);
    var b := Bits([false], [false], [false], [true]);
    assert Reselect(l, lens, {0}, b, 0) == b;
    assert FillPiece(l, [false], 0, false) == [false];
    assert [false][0 := true] == [true] && [true][0 := true] == [true];
  }

  lemma TakenOverFine(l: Lengths)
    requires Tiny(l)
    ensures Fine(l, [l.total], TakenOver())
  {
    AgainQueuedFine(l);
    var lens, s := [l.total], AgainQueued();
    assert s.counters[0] != lens[0] && InRange(l, lens, 0, 0) by { OnlyRange(l); }
    assert s.inflight[0 := 8] == map[0 := 8] && [true][0 := false] == [false];
    FineStep(l, lens, s, Reserve(8, 0), TakenOver());
  }

  function AgainQueued(): State {
    At(true, false, map[0 := 7], map[7 := {}, 8 := {}]).(writes := multiset{WRITE})
  }

  lemma AgainQueuedFine(l: Lengths)
    requires Tiny(l)
    ensures Fine(l, [l.total], AgainQueued())
  {
    WritingFine(l);
    ReselectOnly(l);
    var s := Writing().(bits := Bits([true], [false], [false], [true]));
    FineStep(l, [l.total], Writing(), Reselected({0}), s);
    assert s.requests[8 := {}] == AgainQueued().requests;
    FineStep(l, [l.total], s, Connect(8), AgainQueued());
  }

  lemma OnlyRange(l: Lengths)
    ensures InRange(l, [l.total], 0, 0)
  {
    RangeIsOverlap(l, [l.total], 0, 0);
    assert Offset([l.total], 1) == l.total;
  }

  /** A reselection during a write queues the piece again, and another peer can take it over
      although the first still holds the piece lock. */
  lemma WriterCanLosePiece(l: Lengths) returns (s: State)
    requires Tiny(l)
    ensures Reachable(l, [l.total], s) && WRITE in s.writes && !Owns(s, WRITE)
  {
    TakenOverFine(l);
    s := TakenOver();
  }

  /** The first write is still under way when the hash check of the second fails. */
  function Stale(): State {
    At(true, false, map[], map[7 := {}, 8 := {}]).(writes := multiset{WRITE})
  }

  function BothWriting(): State { TakenOver().(writes := multiset{WRITE} + multiset{Write(8, CHUNK)}) }

  function SecondHashed(): State {
    At(false, true, map[], map[7 := {}, 8 := {}]).(writes := multiset{WRITE}, hashing := multiset{0})
  }

  lemma BothWritingFine(l: Lengths)
    requires Tiny(l)
    ensures Fine(l, [l.total], BothWriting())
  {
    TakenOverFine(l);
    FineWrite(l, [l.total], TakenOver(), Write(8, CHUNK));
  }

  lemma SecondMarked(l: Lengths)
    requires Tiny(l) && Wellformed(l, [l.total], BothWriting())
    ensures Next(l, [l.total], BothWriting(), MarkChunk(Write(8, CHUNK)), SecondHashed())
  {
    MarkOnly(l);
    assert BothWriting().writes - multiset{Write(8, CHUNK)} == multiset{WRITE} && BothWriting().inflight - {0} == map[];
  }

  lemma SecondHashedReachable(l: Lengths)
    requires Tiny(l)
    ensures Reachable(l, [l.total], SecondHashed()) && Wellformed(l, [l.total], SecondHashed())
  {
    BothWritingFine(l);
    SecondMarked(l);
    ReachStep(l, [l.total], BothWriting(), MarkChunk(Write(8, CHUNK)), SecondHashed());
  }

  lemma StaleReachable(l: Lengths)
    requires Tiny(l)
    ensures Reachable(l, [l.total], Stale()) && Wellformed(l, [l.total], Stale())
  {
    SecondHashedReachable(l);
    assert FillPiece(l, [true], 0, false) == [false] && [false][0 := true] == [true];
    ReachStep(l, [l.total], SecondHashed(), HashFail(0), Stale());
  }

  /** Marked only now, the stale chunk completes the piece without anyone hashing it. The piece is
      needed and queued, nothing else is going on, and no chunk will ever complete it again; a pause
      and a resume change nothing about that. */
  lemma StaleWriteSticks(l: Lengths) returns (s: State)
    requires Tiny(l)
    ensures Reachable(l, [l.total], s) && s == Idle(s.bits, [0], true)
    ensures Wellformed(l, [l.total], s) && NeededPiece(l, s.bits, 0) && s.bits.queue[0] && Stuck(l, s, 0)
    ensures Hopeless(l, [l.total], s, 0)
  {
    StaleReachable(l);
    MarkOnly(l);
    var lens := [l.total];
    var s1 := At(true, true, map[], map[7 := {}, 8 := {}]);
    ReachStep(l, lens, Stale(), MarkChunk(WRITE), s1);
    ReachIdle(l, lens, s1);
    s := Idle(s1.bits, [0], true);
    forall n: nat ensures !Hashable(l, lens, s, n, 0) { NothingLeft(l, lens, s, n, 0); }
  }

  /** A pause between the hash check and its credit loses the credit: after the resume the piece is
      had, nothing is pending, and the file's counter is below the bytes had. */
  lemma PauseDropsCredit(l: Lengths) returns (s: State)
    requires Tiny(l)
    ensures Reachable(l, [l.total], s) && Wellformed(l, [l.total], s) && s == Idle(s.bits, [0], true)
    ensures s.bits.have[0] && HadInFile(l, [l.total], s.bits.have, 0, 1) > 0
  {
    HashingReachable(l);
    var lens := [l.total];
    var passed := Hashing().(bits := Bits([false], [true], [true], [true]), hashing := multiset{}, completing := multiset{0});
    assert [false][0 := true] == [true];
    ReachStep(l, lens, Hashing(), HashPass(0), passed);
    ReachIdle(l, lens, passed);
    s := Idle(passed.bits, [0], true);
    OnlyRange(l);
    assert Offset(lens, 1) == l.total;
    SizeInFilePositive(l, lens, 0, 0);
  }

  // ---- two pieces ----

  /** Two equal pieces of one chunk, in one file. */
  predicate Pair(l: Lengths) { l.total == 2 * l.pieceLen && l.pieceLen <= CHUNK_SIZE }

  lemma PairLayout(l: Lengths)
    requires Pair(l)
    ensures TotalPieces(l) == 2 && ChunksPerPiece(l, 0) == ChunksPerPiece(l, 1) == DefaultChunksPerPiece(l) == 1
    ensures ChunkBit(l, 0, 0) == 0 && ChunkBit(l, 0, 1) == 1 && ChunkBit(l, 1, 0) == 1 && ChunkBit(l, 1, 1) == 2
    ensures TotalChunks(l) == 2 && SizeInFile(l, [l.total], 0, 0) == l.pieceLen && SizeInFile(l, [l.total], 1, 0) == l.pieceLen
    ensures InRange(l, [l.total], 0, 0) && InRange(l, [l.total], 0, 1)
  {
    var n := TotalPieces(l);
    if n > 2 { MulMonotone(2, n - 1, l.pieceLen); }
    if n < 2 { MulMonotone(n, 1, l.pieceLen); }
    assert Offset([l.total], 1) == l.total;
    assert PieceLength(l, 0) == l.pieceLen && PieceLength(l, 1) == l.pieceLen;
    assert DefaultChunksPerPiece(l) == 1;
    RangeIsOverlap(l, [l.total], 0, 0);
    RangeIsOverlap(l, [l.total], 0, 1);
  }

  /** Piece 1 has not been touched; of piece 0, whether it is queued, marked and had. */
  function Two(queued: bool, chunk: bool, have: bool, counter: nat): State {
    Idle(Bits([queued, true], [chunk, false], [have, false], [true, true]), [counter], true)
  }

  lemma PairMark(l: Lengths)
    requires Pair(l)
    ensures TotalPieces(l) == 2 && ChunksPerPiece(l, 0) == 1 && TotalChunks(l) == 2
    ensures Mark(l, [false, false], 0, 0) == ([true, false], Completed)
  {
    PairLayout(l);
    assert !HasChunk(l, [false, false], 0, 0) && HasChunk(l, [true, false], 0, 0);
    assert [false, false][0 := true] == [true, false];
  }

  lemma PairStart(l: Lengths)
    requires Pair(l)
    ensures Fine(l, [l.total], Two(true, false, false, 0))
  {
    PairLayout(l);
    var lens, s := [l.total], Two(true, false, false, 0);
    NothingHad(l, lens, [false, false], 0, 2);
    assert Accurate(l, lens, [false, false]) == [0];
    assert Needed([false, false], [true, true]) == [true, true];
    forall p, c | 0 <= p < 2 && 0 <= c < ChunksPerPiece(l, p) ensures !HasChunk(l, [false, false], p, c) {}
    ReachInit(l, lens, s);
  }

  /** Piece 0, `k` times. */
  function Copies(k: nat): multiset<nat> { multiset{}[0 := k] }

  lemma OneMoreCopy(k: nat)
    ensures Copies(k) + multiset{0} == Copies(k + 1) && Copies(k + 1) - multiset{0} == Copies(k)
    ensures 0 in Copies(k + 1) && Copies(0) == multiset{}
  {
  }

  /** Peers 7 and following, `k` of them, with no requests outstanding. */
  function Crew(k: nat): map<Peer, set<Chunk>> { if k == 0 then map[] else Crew(k - 1)[6 + k := {}] }

  lemma {:induction false} OneMorePeer(k: nat)
    ensures (forall q :: q in Crew(k) ==> q < 7 + k) && Crew(k)[7 + k := {}] == Crew(k + 1)
  {
    if k > 0 { OneMorePeer(k - 1); }
  }

  /** Piece 0 is complete and being hashed once for every peer of the crew. */
  function Checking(crew: nat): State {
    Two(false, true, false, 0).(requests := Crew(crew), hashing := Copies(crew))
  }

  /** The next peer connects, reserves queued piece 0 and delivers it. */
  lemma Delivered(l: Lengths, crew: nat)
    requires Pair(l) && Fine(l, [l.total], Two(true, false, false, 0).(requests := Crew(crew), hashing := Copies(crew)))
    ensures Fine(l, [l.total], Checking(crew + 1))
  {
    PairLayout(l);
    var s0 := Two(true, false, false, 0).(requests := Crew(crew), hashing := Copies(crew));
    OneMorePeer(crew);
    FineStep(l, [l.total], s0, Connect(7 + crew), s0.(requests := Crew(crew + 1)));
    ReservedAndFilled(l, crew);
  }

  lemma ReservedAndFilled(l: Lengths, crew: nat)
    requires Pair(l) && Fine(l, [l.total], Two(true, false, false, 0).(requests := Crew(crew + 1), hashing := Copies(crew)))
    ensures Fine(l, [l.total], Checking(crew + 1))
  {
    PairLayout(l);
    PairMark(l);
    var lens, q := [l.total], 7 + crew;
    var s0 := Two(true, false, false, 0).(requests := Crew(crew + 1), hashing := Copies(crew));
    var s1 := Two(false, false, false, 0).(requests := Crew(crew + 1), hashing := Copies(crew), inflight := map[0 := q]);
    assert [true, true][0 := false] == [false, true];
    assert s0.inflight[0 := q] == map[0 := q];
    assert InRange(l, lens, 0, 0) && s0.counters[0] != lens[0];
    FineStep(l, lens, s0, Reserve(q, 0), s1);
    FineChunk(l, lens, s1, 0, 0);
    assert s1.inflight - {0} == map[];
    NoneToAnswer(s1.requests, q, CHUNK);
    OneMoreCopy(crew);
    assert AfterChunk(l, s1, 0, 0) == Checking(crew + 1);
  }

  lemma FirstCheck(l: Lengths)
    requires Pair(l)
    ensures Fine(l, [l.total], Checking(1))
  {
    PairStart(l);
    OneMoreCopy(0);
    OneMorePeer(0);
    Delivered(l, 0);
  }

  lemma PairReselect(l: Lengths)
    requires Pair(l)
    ensures TotalPieces(l) == 2 && Wf(l, Two(false, true, false, 0).bits)
    ensures Reselect(l, [l.total], {0}, Two(false, true, false, 0).bits, 2) == Two(true, false, false, 0).bits
  {
    PairLayout(l);
    var lens, b := [l.total], Two(false, true, false, 0).bits;
    PairChosen(l, 0);
    PairChosen(l, 1);
    assert FillPiece(l, [true, false], 0, false) == [false, false] && FillPiece(l, [false, false], 1, false) == [false, false];
    assert [false, true][0 := true] == [true, true] && [true, true][0 := true] == [true, true] && [true, true][1 := true] == [true, true];
    assert Reselect(l, lens, {0}, b, 0) == b;
    assert Reselect(l, lens, {0}, b, 1) == Two(true, false, false, 0).bits;
  }

  lemma PairChosen(l: Lengths, p: nat)
    requires Pair(l) && p < 2
    ensures PieceChosen(l, [l.total], {0}, p)
  {
    PairLayout(l);
    assert Offset([l.total], 1) == l.total && PieceLength(l, p) > 0;
    assert InFile([l.total], 0, PieceStart(l, p)) && ChosenByte([l.total], {0}, PieceStart(l, p));
  }

  /** Selecting the same file again during the hash check queues and clears the piece, and another
      peer completes it once more. */
  lemma CheckedAgain(l: Lengths, crew: nat)
    requires Pair(l) && Fine(l, [l.total], Checking(crew))
    ensures Fine(l, [l.total], Checking(crew + 1))
  {
    PairReselect(l);
    var s := Two(true, false, false, 0).(requests := Crew(crew), hashing := Copies(crew));
    FineStep(l, [l.total], Checking(crew), Reselected({0}), s);
    Delivered(l, crew);
  }

  /** Piece 0 had, with hash checks still running and credits still to be given. */
  function Passed(crew: nat, counter: nat, checks: nat, credits: nat): State {
    Two(false, true, true, counter).(requests := Crew(crew), hashing := Copies(checks), completing := Copies(credits))
  }

  lemma FirstPass(l: Lengths, checks: nat)
    requires Pair(l) && Fine(l, [l.total], Checking(checks + 1))
    ensures Fine(l, [l.total], Passed(checks + 1, 0, checks, 1))
  {
    PairLayout(l);
    assert [false, false][0 := true] == [true, false];
    OneMoreCopy(checks);
    OneMoreCopy(0);
    FineStep(l, [l.total], Checking(checks + 1), HashPass(0), Passed(checks + 1, 0, checks, 1));
  }

  lemma NextPass(l: Lengths, crew: nat, checks: nat, credits: nat)
    requires Pair(l) && Fine(l, [l.total], Passed(crew, 0, checks + 1, credits))
    ensures Fine(l, [l.total], Passed(crew, 0, checks, credits + 1))
  {
    PairLayout(l);
    assert [true, false][0 := true] == [true, false];
    OneMoreCopy(checks);
    OneMoreCopy(credits);
    FineStep(l, [l.total], Passed(crew, 0, checks + 1, credits), HashPass(0), Passed(crew, 0, checks, credits + 1));
  }

  lemma NextCredit(l: Lengths, crew: nat, counter: nat, credits: nat)
    requires Pair(l) && Fine(l, [l.total], Passed(crew, counter, 0, credits + 1))
    ensures Fine(l, [l.total], Passed(crew, counter + l.pieceLen, 0, credits))
  {
    PairLayout(l);
    assert Credited(l, [l.total], [counter], 0) == [counter + l.pieceLen];
    OneMoreCopy(credits);
    OneMoreCopy(0);
    FineStep(l, [l.total], Passed(crew, counter, 0, credits + 1), Complete(0),
             Passed(crew, counter + l.pieceLen, 0, credits));
  }

  lemma {:induction false} Checked(l: Lengths, k: nat)
    requires Pair(l) && k > 0
    ensures Fine(l, [l.total], Checking(k))
  {
    if k == 1 {
      FirstCheck(l);
    } else {
      Checked(l, k - 1);
      CheckedAgain(l, k - 1);
    }
  }

  lemma {:induction false} PassesGiven(l: Lengths, k: nat, j: nat)
    requires Pair(l) && 0 < j <= k
    ensures Fine(l, [l.total], Passed(k, 0, k - j, j))
  {
    if j == 1 {
      Checked(l, k);
      FirstPass(l, k - 1);
    } else {
      PassesGiven(l, k, j - 1);
      NextPass(l, k, k - j, j - 1);
    }
  }

  /** The bytes of `j` pieces. */
  function Times(l: Lengths, j: nat): nat { if j == 0 then 0 else Times(l, j - 1) + l.pieceLen }

  lemma BothPieces(l: Lengths)
    requires Pair(l)
    ensures Times(l, 2) == l.total
  {
    assert Times(l, 1) == l.pieceLen;
  }

  /** Of `k` passed hash checks of piece 0, `j` are credited. */
  lemma {:induction false} CreditsGiven(l: Lengths, k: nat, j: nat)
    requires Pair(l) && 0 < k && j <= k
    ensures Fine(l, [l.total], Passed(k, Times(l, j), 0, k - j))
  {
    if j == 0 {
      PassesGiven(l, k, k);
    } else {
      CreditsGiven(l, k, j - 1);
      NextCredit(l, k, Times(l, j - 1), k - j);
    }
  }

  /** Two hash checks of piece 0 pass and are credited, and the file looks finished: piece 1 is needed
      and queued, nothing is going on, yet it is not offered to anyone. */
  lemma DoubleCreditHides(l: Lengths) returns (s: State)
    requires Pair(l)
    ensures Reachable(l, [l.total], s) && Wellformed(l, [l.total], s) && s.live && Covered(l, s)
    ensures s.hashing == s.completing == multiset{} && s.inflight == map[] && s.counters == [l.total]
    ensures NeededPiece(l, s.bits, 1) && s.bits.queue[1] && !Shown(l, [l.total], s.counters, 1)
  {
    CreditsGiven(l, 2, 2);
    BothPieces(l);
    s := Passed(2, l.total, 0, 0);
    OneMoreCopy(0);
    PairHidden(l);
  }

  lemma PairHidden(l: Lengths)
    requires Pair(l)
    ensures var s := Passed(2, l.total, 0, 0);
            Wf(l, s.bits) && Covered(l, s) && NeededPiece(l, s.bits, 1) && !Shown(l, [l.total], s.counters, 1)
  {
    PairLayout(l);
  }

  /** The same after a pause and a resume, for every order listing all files; and no delivery ever
      changes that. */
  lemma HiddenAfterResume(l: Lengths, order: seq<nat>) returns (s: State)
    requires Pair(l) && 0 in order
    ensures Reachable(l, [l.total], s) && Wellformed(l, [l.total], s)
    ensures s == Idle(s.bits, [l.total], true) && NeededPiece(l, s.bits, 1) && s.bits.queue[1]
    ensures Hopeless(l, [l.total], s, 1)
    ensures TotalLength([l.total]) == l.total && TotalPieces(l) == 2
    ensures 1 !in IterQueued(l, [l.total], s.bits.queue, s.counters, order)
  {
    var r := DoubleCreditHides(l);
    PairLayout(l);
    var lens := [l.total];
    ReachIdle(l, lens, r);
    s := Idle(r.bits, r.counters, true);
    assert Offset(lens, 1) == l.total;
    OfferedIffShown(l, lens, s, order, 1);
    NotShown(l);
    forall n: nat ensures !Hashable(l, lens, s, n, 1) { NothingLeft(l, lens, s, n, 1); }
  }

  lemma NotShown(l: Lengths)
    ensures forall q: nat :: !Shown(l, [l.total], [l.total], q)
  {
  }

  /** A third hash check of piece 0 shows piece 1 again: its credit takes the counter past the length
      of the file. Hidden is not hopeless while a credit is to come. */
  lemma ThirdCreditShows(l: Lengths) returns (s: State, t: State)
    requires Pair(l)
    ensures Reachable(l, [l.total], s) && Wellformed(l, [l.total], s) && s.live && s.hashing == multiset{} && s.inflight == map[]
    ensures NeededPiece(l, s.bits, 1) && s.bits.queue[1] && !Shown(l, [l.total], s.counters, 1) && !Hopeless(l, [l.total], s, 1)
    ensures Next(l, [l.total], s, Complete(0), t) && Wellformed(l, [l.total], t) && Shown(l, [l.total], t.counters, 1)
  {
    CreditsGiven(l, 3, 2);
    BothPieces(l);
    s, t := Passed(3, l.total, 0, 1), Passed(3, l.total + l.pieceLen, 0, 0);
    OneMoreCopy(0);
    NotShown(l);
    LastCredit(l);
  }

  lemma LastCredit(l: Lengths)
    requires Pair(l) && Wellformed(l, [l.total], Passed(3, l.total, 0, 1))
    ensures var s, t := Passed(3, l.total, 0, 1), Passed(3, l.total + l.pieceLen, 0, 0);
            && NeededPiece(l, s.bits, 1) && !Hopeless(l, [l.total], s, 1) && Next(l, [l.total], s, Complete(0), t)
            && Wellformed(l, [l.total], t) && Shown(l, [l.total], t.counters, 1)
  {
    PairLayout(l);
    var lens, s := [l.total], Passed(3, l.total, 0, 1);
    OneMoreCopy(0);
    CreditToCome(l, s);
    assert Credited(l, lens, [l.total], 0) == [l.total + l.pieceLen];
    ShownAgain(l);
    WellformedStep(l, lens, s, Complete(0), Passed(3, l.total + l.pieceLen, 0, 0));
  }

  lemma ShownAgain(l: Lengths)
    requires Pair(l)
    ensures Shown(l, [l.total], [l.total + l.pieceLen], 1)
  {
    PairLayout(l);
    assert InRange(l, [l.total], 0, 1);
  }

  lemma CreditToCome(l: Lengths, s: State)
    requires Pair(l) && Wellformed(l, [l.total], s) && 0 in s.completing && TotalPieces(l) == 2
    requires s.bits.queue[1] && |s.bits.chunks| == 2 && !s.bits.chunks[1]
    ensures !Hopeless(l, [l.total], s, 1)
  {
    PairLayout(l);
    assert Shares(l, [l.total], 0, 0, 1) && !HasChunk(l, s.bits.chunks, 1, 0);
    assert Creditable(l, [l.total], s, 0, 0);
    Fed(l, [l.total], s, 0, 0, 0, 1);
  }
}
