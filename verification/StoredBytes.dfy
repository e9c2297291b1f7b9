/** Stored bytes beside the piece protocol: writes reach the disk while their piece is locked, outside
    the torrent's lock, and a hash check reads the piece at some moment while it runs. */
module StoredBytes {
  import opened Lengths
  import opened FileLayout
  import opened FlatStorage
  import opened FileOps
  import opened Outcomes
  import opened PieceProtocol
  import Completion
  import ProtocolTraces

  datatype Disk = Disk(torrent: State, contents: seq<seq<byte>>)

  datatype DiskStep = Torrent(step: Step) | Store(write: Write, data: seq<byte>)

  function ChunkStart(l: Lengths, c: Chunk): nat { PieceStart(l, c.piece) + c.index * CHUNK_SIZE }

  function ChunkLength(l: Lengths, c: Chunk): int
    requires IsChunk(l, c)
  {
    Min(CHUNK_SIZE, PieceLength(l, c.piece) - c.index * CHUNK_SIZE)
  }

  /** What writing `data` at `off` makes of the files. */
  ghost predicate Written(files: seq<File>, before: seq<seq<byte>>, after: seq<seq<byte>>, off: nat, data: seq<byte>)
    requires |before| == |files|
  {
    && Grown(before, after) && Present(files, after, off, |data|)
    && FlatAll(files, after) == Patch(FlatAll(files, before), PadMask(files, |files|), off, data)
  }

  /** The bytes of piece `p` are there and have its digest: a piece check answers true. */
  ghost predicate Matches(l: Lengths, files: seq<File>, contents: seq<seq<byte>>, expected: seq<Digest>, p: nat)
    requires TotalLength(Lens(files)) == l.total && |contents| == |files|
  {
    && p < TotalPieces(l) && p < |expected| && PiecePresent(l, files, contents, p)
    && expected[p] == Sha1(PieceSlice(l, files, contents, p))
  }

  ghost predicate Ready(l: Lengths, files: seq<File>, d: Disk) {
    Wellformed(l, Lens(files), d.torrent) && |d.contents| == |files|
  }

  ghost predicate NextDisk(l: Lengths, files: seq<File>, d: Disk, step: DiskStep, d': Disk)
    requires Ready(l, files, d)
  {
    match step
    case Torrent(s) => d'.contents == d.contents && Next(l, Lens(files), d.torrent, s, d'.torrent)
    case Store(w, data) =>
      && d'.torrent == d.torrent && w in d.torrent.writes && |data| == ChunkLength(l, w.chunk)
      && Written(files, d.contents, d'.contents, ChunkStart(l, w.chunk), data)
  }

  ghost predicate StepAt(l: Lengths, files: seq<File>, ds: seq<Disk>, steps: seq<DiskStep>, k: nat)
    requires k < |steps| < |ds|
  {
    Ready(l, files, ds[k]) && Ready(l, files, ds[k + 1]) && NextDisk(l, files, ds[k], steps[k], ds[k + 1])
  }

  ghost predicate Linked(l: Lengths, files: seq<File>, ds: seq<Disk>, steps: seq<DiskStep>) {
    |ds| == |steps| + 1 && forall k :: 0 <= k < |steps| ==> StepAt(l, files, ds, steps, k)
  }

  /** A hash check that passes in step `k` read the piece at some moment while it ran. */
  ghost predicate PassRead(l: Lengths, files: seq<File>, expected: seq<Digest>, ds: seq<Disk>, steps: seq<DiskStep>, k: nat)
    requires TotalLength(Lens(files)) == l.total && k < |steps| < |ds|
  {
    steps[k].Torrent? && steps[k].step.HashPass? ==> ReadBefore(l, files, expected, ds, k, steps[k].step.piece)
  }

  ghost predicate DiskRun(l: Lengths, files: seq<File>, expected: seq<Digest>, ds: seq<Disk>, steps: seq<DiskStep>)
    requires TotalLength(Lens(files)) == l.total
  {
    Linked(l, files, ds, steps) && forall k :: 0 <= k < |steps| ==> PassRead(l, files, expected, ds, steps, k)
  }

  ghost predicate ReadBefore(l: Lengths, files: seq<File>, expected: seq<Digest>, ds: seq<Disk>, k: nat, p: nat)
    requires TotalLength(Lens(files)) == l.total && k < |ds|
  {
    exists j :: 0 <= j <= k && Ready(l, files, ds[j]) && Matches(l, files, ds[j].contents, expected, p) && Hashing(ds, j, k, p)
  }

  ghost predicate Hashing(ds: seq<Disk>, j: nat, k: nat, p: nat)
    requires k < |ds|
  {
    forall m :: j <= m <= k ==> p in ds[m].torrent.hashing
  }

  /** Bytes reach the disk for a piece that is had or being hashed. */
  ghost predicate Disturbs(l: Lengths, d: Disk, step: DiskStep) {
    && step.Store? && (step.write.chunk.piece in d.torrent.hashing
                       || (step.write.chunk.piece < |d.torrent.bits.have| && d.torrent.bits.have[step.write.chunk.piece]))
  }

  lemma ChunkInPiece(l: Lengths, c: Chunk)
    requires IsChunk(l, c)
    ensures 0 < ChunkLength(l, c) && PieceStart(l, c.piece) <= ChunkStart(l, c)
    ensures ChunkStart(l, c) + ChunkLength(l, c) <= PieceEnd(l, c.piece)
  {
  }

  /** The chunks of all pieces tile the torrent: every byte is written by exactly one of them. */
  lemma ChunksTileTorrent(l: Lengths, b: nat, c: Chunk)
    requires b < l.total && IsChunk(l, c)
    ensures ChunkStart(l, c) <= b < ChunkStart(l, c) + ChunkLength(l, c)
            <==> c == Chunk(PieceOf(l, b), (b - PieceOf(l, b) * l.pieceLen) / 16384)
  {
    PieceOfByte(l, b, c.piece);
    ChunkInPiece(l, c);
    DivBlock(b, l.pieceLen, PieceOf(l, b));
    if c.piece == PieceOf(l, b) { ChunksTilePiece(l, c.piece, b - PieceStart(l, c.piece), c.index); }
  }

  lemma PiecesApart(l: Lengths, p: nat, q: nat)
    requires p < TotalPieces(l) && q < TotalPieces(l) && p != q
    ensures PieceEnd(l, p) <= PieceStart(l, q) || PieceEnd(l, q) <= PieceStart(l, p)
  {
    if p < q { MulMonotone(p + 1, q, l.pieceLen); }
    if q < p { MulMonotone(q + 1, p, l.pieceLen); }
  }

  /** A chunk written to one piece leaves every other matching. */
  lemma StoreElsewhere(l: Lengths, files: seq<File>, before: seq<seq<byte>>, after: seq<seq<byte>>, expected: seq<Digest>,
                       c: Chunk, data: seq<byte>, p: nat)
    requires TotalLength(Lens(files)) == l.total && |before| == |files| && IsChunk(l, c) && c.piece != p
    requires |data| == ChunkLength(l, c) && Written(files, before, after, ChunkStart(l, c), data)
    requires Matches(l, files, before, expected, p)
    ensures |after| == |files| && Matches(l, files, after, expected, p)
  {
    ChunkInPiece(l, c);
    PiecesApart(l, p, c.piece);
    assert PieceLength(l, p) > 0 && PieceLength(l, c.piece) > 0;
    PresentGrown(files, before, after, PieceStart(l, p), PieceLength(l, p));
    forall b: nat | b < TotalLength(Lens(files)) ensures PadMask(files, |files|)[b] ==> FlatAll(files, before)[b] == 0 {
      PadsAreZero(files, before, b);
    }
    PatchThenSlice(FlatAll(files, before), PadMask(files, |files|), ChunkStart(l, c), data,
                   PieceStart(l, p), PieceStart(l, p) + PieceLength(l, p));
  }

  /** A matching piece that is had or being hashed stays so over an undisturbing step. */
  lemma MatchesStep(l: Lengths, files: seq<File>, expected: seq<Digest>, d: Disk, step: DiskStep, d': Disk, p: nat)
    requires TotalLength(Lens(files)) == l.total && Ready(l, files, d) && Ready(l, files, d') && NextDisk(l, files, d, step, d')
    requires !Disturbs(l, d, step) && Matches(l, files, d.contents, expected, p)
    requires p in d.torrent.hashing || d.torrent.bits.have[p]
    ensures Matches(l, files, d'.contents, expected, p)
  {
    if step.Store? {
      StoreElsewhere(l, files, d.contents, d'.contents, expected, step.write.chunk, step.data, p);
    }
  }

  /** From state `m` on to the next, piece `p` goes on matching. */
  ghost predicate Keeps(l: Lengths, files: seq<File>, expected: seq<Digest>, ds: seq<Disk>, m: nat, p: nat)
    requires TotalLength(Lens(files)) == l.total && m + 1 < |ds|
  {
    && |ds[m].contents| == |files| && |ds[m + 1].contents| == |files|
    && (Matches(l, files, ds[m].contents, expected, p) ==> Matches(l, files, ds[m + 1].contents, expected, p))
  }

  lemma {:induction false} KeepsOn(l: Lengths, files: seq<File>, expected: seq<Digest>, ds: seq<Disk>, j: nat, k: nat, p: nat)
    requires TotalLength(Lens(files)) == l.total && j <= k < |ds| && |ds[j].contents| == |files|
    requires forall m :: j <= m < k ==> Keeps(l, files, expected, ds, m, p)
    requires Matches(l, files, ds[j].contents, expected, p)
    ensures |ds[k].contents| == |files| && Matches(l, files, ds[k].contents, expected, p)
    decreases k
  {
    if j < k {
      KeepsOn(l, files, expected, ds, j, k - 1, p);
      assert Keeps(l, files, expected, ds, k - 1, p);
    }
  }

  lemma MatchesWhileHashed(l: Lengths, files: seq<File>, expected: seq<Digest>, ds: seq<Disk>, steps: seq<DiskStep>,
                           j: nat, k: nat, p: nat)
    requires TotalLength(Lens(files)) == l.total && Linked(l, files, ds, steps) && j <= k <= |steps|
    requires Hashing(ds, j, k, p) && |ds[j].contents| == |files| && Matches(l, files, ds[j].contents, expected, p)
    requires forall m :: 0 <= m < k ==> !Disturbs(l, ds[m], steps[m])
    ensures |ds[k].contents| == |files| && Matches(l, files, ds[k].contents, expected, p)
  {
    forall m | j <= m < k ensures Keeps(l, files, expected, ds, m, p) {
      HashedStep(l, files, expected, ds, steps, m, p);
    }
    KeepsOn(l, files, expected, ds, j, k, p);
  }

  lemma HashedStep(l: Lengths, files: seq<File>, expected: seq<Digest>, ds: seq<Disk>, steps: seq<DiskStep>, m: nat, p: nat)
    requires TotalLength(Lens(files)) == l.total && m < |steps| < |ds| && StepAt(l, files, ds, steps, m)
    requires !Disturbs(l, ds[m], steps[m]) && p in ds[m].torrent.hashing
    ensures Keeps(l, files, expected, ds, m, p)
  {
    if Matches(l, files, ds[m].contents, expected, p) {
      MatchesStep(l, files, expected, ds[m], steps[m], ds[m + 1], p);
    }
  }

  /** In every run in which no bytes reach the disk for a piece that is had or being hashed, a have bit
      means that a piece check would answer true, in every state, if it did at the start. */
  lemma {:induction false} HaveMeansStored(l: Lengths, files: seq<File>, expected: seq<Digest>, ds: seq<Disk>, steps: seq<DiskStep>,
                                           n: nat, p: nat)
    requires TotalLength(Lens(files)) == l.total && DiskRun(l, files, expected, ds, steps) && n <= |steps|
    requires forall m :: 0 <= m < n ==> !Disturbs(l, ds[m], steps[m])
    requires Ready(l, files, ds[0]) && Ready(l, files, ds[n]) && p < TotalPieces(l)
    requires ds[0].torrent.bits.have[p] ==> Matches(l, files, ds[0].contents, expected, p)
    ensures ds[n].torrent.bits.have[p] ==> Matches(l, files, ds[n].contents, expected, p)
  {
    if n > 0 {
      assert StepAt(l, files, ds, steps, n - 1);
      HaveMeansStored(l, files, expected, ds, steps, n - 1, p);
      if steps[n - 1] == Torrent(HashPass(p)) { PassWasRead(l, files, expected, ds, steps, n - 1, p); }
      StoredStep(l, files, expected, ds[n - 1], steps[n - 1], ds[n], p);
    }
  }

  lemma PassWasRead(l: Lengths, files: seq<File>, expected: seq<Digest>, ds: seq<Disk>, steps: seq<DiskStep>, k: nat, p: nat)
    requires TotalLength(Lens(files)) == l.total && DiskRun(l, files, expected, ds, steps) && k < |steps|
    requires steps[k] == Torrent(HashPass(p)) && forall m :: 0 <= m < k ==> !Disturbs(l, ds[m], steps[m])
    ensures |ds[k].contents| == |files| && Matches(l, files, ds[k].contents, expected, p)
  {
    assert PassRead(l, files, expected, ds, steps, k);
    var j :| 0 <= j <= k && Ready(l, files, ds[j]) && Matches(l, files, ds[j].contents, expected, p) && Hashing(ds, j, k, p);
    MatchesWhileHashed(l, files, expected, ds, steps, j, k, p);
  }

  lemma StoredStep(l: Lengths, files: seq<File>, expected: seq<Digest>, d: Disk, step: DiskStep, d': Disk, p: nat)
    requires TotalLength(Lens(files)) == l.total && Ready(l, files, d) && Ready(l, files, d') && NextDisk(l, files, d, step, d')
    requires !Disturbs(l, d, step) && p < TotalPieces(l)
    requires d.torrent.bits.have[p] || step == Torrent(HashPass(p)) ==> Matches(l, files, d.contents, expected, p)
    ensures d'.torrent.bits.have[p] ==> Matches(l, files, d'.contents, expected, p)
  {
    if d.torrent.bits.have[p] {
      MatchesStep(l, files, expected, d, step, d', p);
    } else if d'.torrent.bits.have[p] {
      Completion.PassedHave(l, Lens(files), d.torrent, step.step, d'.torrent, p);
    }
  }

  /** What a matching piece is for a piece check. */
  method CheckMatching(l: Lengths, files: seq<File>, st: Storage, expected: seq<Digest>, p: nat) returns (r: Result<bool>)
    requires p < TotalPieces(l) && TotalLength(Lens(files)) == l.total && |st.contents| == |files|
    ensures r == Ok(true) <==> Matches(l, files, st.contents, expected, p)
  {
    r := CheckPiece(l, files, st, expected, p);
  }

  // ---- a stale write spoils a had piece ----

  lemma OneFile(l: Lengths, data: seq<byte>)
    requires |data| == l.total
    ensures FlatAll([File(l.total, false)], [data]) == data
    ensures PadMask([File(l.total, false)], 1) == seq(l.total, _ => false)
    ensures TotalLength(Lens([File(l.total, false)])) == l.total && Lens([File(l.total, false)]) == [l.total]
  {
    var files := [File(l.total, false)];
    assert Lens(files) == [l.total] && Offset(Lens(files), 1) == l.total;
    assert Flat(files, [data], 0) == [] && FileBytes(files, [data], 0) == data;
    assert PadMask(files, 0) == [];
  }

  lemma OneFileWritten(l: Lengths, before: seq<byte>, data: seq<byte>)
    requires |data| == |before| == l.total
    ensures Written([File(l.total, false)], [before], [data], 0, data)
  {
    var files := [File(l.total, false)];
    OneFile(l, before);
    OneFile(l, data);
    assert Patch(before, seq(l.total, _ => false), 0, data) == data;
    HoldsIsSlice(files, [data], 0, data);
    forall i: nat, b: nat | InFile(Lens(files), i, b) ensures PresentByte(files, [data], i, b) {}
  }

  lemma OneFileMatches(l: Lengths, data: seq<byte>, good: seq<byte>)
    requires ProtocolTraces.Tiny(l) && |data| == l.total
    ensures TotalLength(Lens([File(l.total, false)])) == l.total
    ensures Matches(l, [File(l.total, false)], [data], [Sha1(good)], 0) <==> data == good
  {
    var files := [File(l.total, false)];
    OneFile(l, data);
    PiecesAbut(l, 0);
    assert PieceLength(l, 0) == l.total;
    forall i: nat, b: nat | InFile(Lens(files), i, b) ensures PresentByte(files, [data], i, b) {}
    assert PieceSlice(l, files, [data], 0) == data;
  }

  /** Peers 7 and 8 are both writing the one chunk, as after a reselection during the first write. The
      second write brings the right bytes, the hash check reads them and passes; then the first write
      brings other bytes. The piece is had and does not match. */
  lemma StaleWriteSpoils(l: Lengths, blank: seq<byte>, good: seq<byte>, bad: seq<byte>) returns (ds: seq<Disk>, steps: seq<DiskStep>)
    requires ProtocolTraces.Tiny(l) && |blank| == |good| == |bad| == l.total <= CHUNK_SIZE && good != bad
    ensures TotalLength(Lens([File(l.total, false)])) == l.total
    ensures DiskRun(l, [File(l.total, false)], [Sha1(good)], ds, steps) && |ds| > 0
    ensures ProtocolTraces.Reachable(l, [l.total], ds[0].torrent) && !ds[0].torrent.bits.have[0]
    ensures Ready(l, [File(l.total, false)], ds[|steps|])
    ensures ds[|steps|].torrent.bits.have[0] && !Matches(l, [File(l.total, false)], ds[|steps|].contents, [Sha1(good)], 0)
  {
    var files, expected := [File(l.total, false)], [Sha1(good)];
    var t0, t1, t2 := SpoiledStates(l);
    var w8, w7 := Write(8, ProtocolTraces.CHUNK), ProtocolTraces.WRITE;
    OneFile(l, blank);
    ds, steps := [Disk(t0, [blank])], [];
    StoreStep(l, t0, w8, blank, good);
    ds, steps := OneStep(l, files, expected, ds, steps, Store(w8, good), Disk(t0, [good]));
    ds, steps := OneStep(l, files, expected, ds, steps, Torrent(MarkChunk(w8)), Disk(t1, [good]));
    OneFileMatches(l, good, good);
    ds, steps := OneStep(l, files, expected, ds, steps, Torrent(HashPass(0)), Disk(t2, [good]));
    StoreStep(l, t2, w7, good, bad);
    ds, steps := OneStep(l, files, expected, ds, steps, Store(w7, bad), Disk(t2, [bad]));
    OneFileMatches(l, bad, good);
  }

  /** A run goes on by one step; a hash check that passes reads the piece just before. */
  lemma OneStep(l: Lengths, files: seq<File>, expected: seq<Digest>, ds: seq<Disk>, steps: seq<DiskStep>, step: DiskStep, d: Disk)
    returns (ds': seq<Disk>, steps': seq<DiskStep>)
    requires TotalLength(Lens(files)) == l.total && DiskRun(l, files, expected, ds, steps)
    requires Ready(l, files, ds[|steps|]) && Ready(l, files, d) && NextDisk(l, files, ds[|steps|], step, d)
    requires step.Torrent? && step.step.HashPass? ==>
               Matches(l, files, ds[|steps|].contents, expected, step.step.piece) && step.step.piece in ds[|steps|].torrent.hashing
    ensures DiskRun(l, files, expected, ds', steps') && |ds'| == |ds| + 1 && ds'[0] == ds[0] && ds'[|steps'|] == d
  {
    ds', steps' := ds + [d], steps + [step];
    var n := |steps|;
    forall k | 0 <= k < n
      ensures StepAt(l, files, ds', steps', k) && PassRead(l, files, expected, ds', steps', k)
    {
      assert StepAt(l, files, ds, steps, k) && PassRead(l, files, expected, ds, steps, k);
      if steps[k].Torrent? && steps[k].step.HashPass? { ReadInPrefix(l, files, expected, ds, ds', k, steps[k].step.piece); }
    }
    if step.Torrent? && step.step.HashPass? {
      assert Hashing(ds', n, n, step.step.piece);
      assert ReadBefore(l, files, expected, ds', n, step.step.piece);
    }
    assert StepAt(l, files, ds', steps', n);
  }

  lemma ReadInPrefix(l: Lengths, files: seq<File>, expected: seq<Digest>, ds: seq<Disk>, ds': seq<Disk>, k: nat, p: nat)
    requires TotalLength(Lens(files)) == l.total && k < |ds| <= |ds'| && ds == ds'[..|ds|]
    requires ReadBefore(l, files, expected, ds, k, p)
    ensures ReadBefore(l, files, expected, ds', k, p)
  {
    var j :| 0 <= j <= k && Ready(l, files, ds[j]) && Matches(l, files, ds[j].contents, expected, p) && Hashing(ds, j, k, p);
    forall m | j <= m <= k ensures p in ds'[m].torrent.hashing { assert p in ds[m].torrent.hashing; }
    assert Hashing(ds', j, k, p);
  }

  lemma StoreStep(l: Lengths, t: State, w: Write, before: seq<byte>, data: seq<byte>)
    requires ProtocolTraces.Tiny(l) && l.total <= CHUNK_SIZE && |before| == |data| == l.total
    requires Wellformed(l, [l.total], t) && w in t.writes && w.chunk == ProtocolTraces.CHUNK
    ensures var files, d, d' := [File(l.total, false)], Disk(t, [before]), Disk(t, [data]);
            Ready(l, files, d) && Ready(l, files, d') && NextDisk(l, files, d, Store(w, data), d')
  {
    OneFile(l, before);
    OneFileWritten(l, before, data);
    WholeChunk(l);
  }

  lemma WholeChunk(l: Lengths)
    requires ProtocolTraces.Tiny(l) && l.total <= CHUNK_SIZE
    ensures IsChunk(l, ProtocolTraces.CHUNK) && ChunkStart(l, ProtocolTraces.CHUNK) == 0
    ensures ChunkLength(l, ProtocolTraces.CHUNK) == l.total
  {
    PiecesAbut(l, 0);
    assert PieceLength(l, 0) == l.total;
  }

  /** Both writing; the second marked and being hashed; passed, with the first still being written. */
  lemma SpoiledStates(l: Lengths) returns (t0: State, t1: State, t2: State)
    requires ProtocolTraces.Tiny(l)
    ensures ProtocolTraces.Reachable(l, [l.total], t0) && !t0.bits.have[0]
    ensures Wellformed(l, [l.total], t0) && Wellformed(l, [l.total], t1) && Wellformed(l, [l.total], t2)
    ensures Write(8, ProtocolTraces.CHUNK) in t0.writes && 0 in t1.hashing && ProtocolTraces.WRITE in t2.writes && t2.bits.have[0]
    ensures Next(l, [l.total], t0, MarkChunk(Write(8, ProtocolTraces.CHUNK)), t1) && Next(l, [l.total], t1, HashPass(0), t2)
  {
    ProtocolTraces.BothWritingFine(l);
    ProtocolTraces.SecondHashedReachable(l);
    t0, t1 := ProtocolTraces.BothWriting(), ProtocolTraces.SecondHashed();
    ProtocolTraces.SecondMarked(l);
    t2 := SecondPassed(l);
  }

  lemma SecondPassed(l: Lengths) returns (t: State)
    requires ProtocolTraces.Tiny(l) && Wellformed(l, [l.total], ProtocolTraces.SecondHashed())
    ensures Wellformed(l, [l.total], t) && Next(l, [l.total], ProtocolTraces.SecondHashed(), HashPass(0), t)
    ensures ProtocolTraces.WRITE in t.writes && t.bits.have[0]
  {
    var s := ProtocolTraces.SecondHashed();
    t := s.(bits := s.bits.(have := [true]), hashing := multiset{}, completing := multiset{0});
    assert [false][0 := true] == [true];
    WellformedStep(l, [l.total], s, HashPass(0), t);
  }
}
