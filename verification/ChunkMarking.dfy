/** Marking received chunks: the bitfield implements one set of received chunks per piece. */
module ChunkMarking {
  import opened Lengths
  import opened PieceBits
  import opened Outcomes

  datatype ChunkMarkingResult = PreviouslyCompleted | NotCompleted | Completed

  /** The chunk a received block is, if its piece, offset and size are those of a chunk. */
  function ReceivedChunk(l: Lengths, index: nat, begin: nat, len: nat): (r: Option<nat>)
    ensures r.Some? <==>
              index < TotalPieces(l) && begin % CHUNK_SIZE == 0 && begin / CHUNK_SIZE < ChunksPerPiece(l, index)
              && len == Min(CHUNK_SIZE, PieceLength(l, index) - begin)
    ensures r.Some? ==> r.value < ChunksPerPiece(l, index) && begin == r.value * CHUNK_SIZE && len > 0
  {
    if index >= TotalPieces(l) || begin % CHUNK_SIZE != 0 then None
    else
      var c := begin / CHUNK_SIZE;
      if c < ChunksPerPiece(l, index) && len == Min(CHUNK_SIZE, PieceLength(l, index) - begin)
      then Some(c) else None
  }

  function Mark(l: Lengths, chunks: seq<bool>, p: nat, c: nat): (r: (seq<bool>, ChunkMarkingResult))
    requires p < TotalPieces(l) && c < ChunksPerPiece(l, p) && |chunks| >= TotalChunks(l)
    ensures |r.0| == |chunks|
  {
    if PieceFull(l, chunks, p) then (chunks, PreviouslyCompleted)
    else
      ChunkRangesDisjoint(l, p, p, ChunkBit(l, p, c));
      var marked := chunks[ChunkBit(l, p, c) := true];
      (marked, if PieceFull(l, marked, p) then Completed else NotCompleted)
  }

  /** The chunks of piece `p` received so far. */
  function Received(l: Lengths, chunks: seq<bool>, p: nat): set<nat>
    requires p < TotalPieces(l) && |chunks| >= TotalChunks(l)
  {
    set c | 0 <= c < ChunksPerPiece(l, p) && HasChunk(l, chunks, p, c)
  }

  /** `s` holds every chunk of piece `p`. */
  predicate Full(l: Lengths, p: nat, s: set<nat>)
    requires p < TotalPieces(l)
  {
    forall c: nat :: c < ChunksPerPiece(l, p) ==> c in s
  }

  /** What a piece can go through: a chunk arrives, or the piece is marked broken. */
  datatype Event = Arrive(piece: nat, chunk: nat) | Clear(piece: nat)

  predicate Possible(l: Lengths, e: Event) {
    e.piece < TotalPieces(l) && (e.Arrive? ==> e.chunk < ChunksPerPiece(l, e.piece))
  }

  predicate AllPossible(l: Lengths, history: seq<Event>) {
    forall k :: 0 <= k < |history| ==> Possible(l, history[k])
  }

  function Step(l: Lengths, chunks: seq<bool>, e: Event): (r: seq<bool>)
    requires |chunks| >= TotalChunks(l) && Possible(l, e)
    ensures |r| == |chunks|
  {
    match e
    case Arrive(p, c) => Mark(l, chunks, p, c).0
    case Clear(p) => FillPiece(l, chunks, p, false)
  }

  /** The chunk bitfield after a history of events. */
  function After(l: Lengths, chunks: seq<bool>, history: seq<Event>): (r: seq<bool>)
    requires |chunks| >= TotalChunks(l) && AllPossible(l, history)
    ensures |r| == |chunks|
  {
    if history == [] then chunks
    else Step(l, After(l, chunks, history[..|history| - 1]), history[|history| - 1])
  }

  function Grow(p: nat, got: set<nat>, e: Event): set<nat> {
    if e.piece != p then got
    else match e
      case Arrive(_, c) => got + {c}
      case Clear(_) => {}
  }

  /** The chunks of `p` that arrived since it was last cleared, on top of `start`. */
  function Arrived(p: nat, start: set<nat>, history: seq<Event>): set<nat> {
    if history == [] then start
    else Grow(p, Arrived(p, start, history[..|history| - 1]), history[|history| - 1])
  }

  /** One event changes the received set of its own piece only, and as a set would. */
  lemma EventEffect(l: Lengths, chunks: seq<bool>, e: Event, p: nat)
    requires |chunks| >= TotalChunks(l) && Possible(l, e) && p < TotalPieces(l)
    ensures Received(l, Step(l, chunks, e), p) == Grow(p, Received(l, chunks, p), e)
  {
    var after := Step(l, chunks, e);
    forall c: nat | c < ChunksPerPiece(l, p)
      ensures HasChunk(l, after, p, c) <==> c in Grow(p, Received(l, chunks, p), e)
    {
      ChunkRangesDisjoint(l, p, e.piece, ChunkBit(l, p, c));
      if e.Arrive? { ChunkRangesDisjoint(l, e.piece, p, ChunkBit(l, e.piece, e.chunk)); }
    }
  }

  /** For every history over all pieces, in any order and with duplicates, the bits of a piece
      are exactly the chunks that arrived for it since it was last cleared. */
  lemma {:induction false} BitsAreArrivals(l: Lengths, chunks: seq<bool>, history: seq<Event>, p: nat)
    requires |chunks| >= TotalChunks(l) && p < TotalPieces(l) && AllPossible(l, history)
    ensures Received(l, After(l, chunks, history), p) == Arrived(p, Received(l, chunks, p), history)
  {
    if history != [] {
      var short := history[..|history| - 1];
      BitsAreArrivals(l, chunks, short, p);
      EventEffect(l, After(l, chunks, short), history[|history| - 1], p);
    }
  }

  lemma FullIsAll(l: Lengths, chunks: seq<bool>, p: nat)
    requires p < TotalPieces(l) && |chunks| >= TotalChunks(l)
    ensures PieceFull(l, chunks, p) <==> Full(l, p, Received(l, chunks, p))
  {
    if Full(l, p, Received(l, chunks, p)) {
      forall c: nat | c < ChunksPerPiece(l, p) ensures HasChunk(l, chunks, p, c) {
        assert c in Received(l, chunks, p);
      }
    }
  }

  /** The answer given to an arrival, in terms of the set of arrivals alone: `Completed`
      precisely when this chunk makes the set full, `PreviouslyCompleted` when it was full. */
  lemma MarkingAnswer(l: Lengths, chunks: seq<bool>, history: seq<Event>, p: nat, c: nat)
    requires |chunks| >= TotalChunks(l) && p < TotalPieces(l) && c < ChunksPerPiece(l, p)
    requires AllPossible(l, history)
    ensures var got := Arrived(p, Received(l, chunks, p), history);
            Mark(l, After(l, chunks, history), p, c).1
            == if Full(l, p, got) then PreviouslyCompleted
               else if Full(l, p, got + {c}) then Completed
               else NotCompleted
  {
    var bits := After(l, chunks, history);
    BitsAreArrivals(l, chunks, history, p);
    FullIsAll(l, bits, p);
    EventEffect(l, bits, Arrive(p, c), p);
    FullIsAll(l, Step(l, bits, Arrive(p, c)), p);
  }

  lemma {:induction false} FullStaysFull(l: Lengths, p: nat, start: set<nat>, history: seq<Event>)
    requires p < TotalPieces(l) && Full(l, p, start) && Clear(p) !in history
    ensures Full(l, p, Arrived(p, start, history))
  {
    if history != [] {
      FullStaysFull(l, p, start, history[..|history| - 1]);
      assert history[|history| - 1] in history;
    }
  }

  lemma {:induction false} AfterConcat(l: Lengths, chunks: seq<bool>, first: seq<Event>, rest: seq<Event>)
    requires |chunks| >= TotalChunks(l) && AllPossible(l, first) && AllPossible(l, rest)
    ensures After(l, chunks, first + rest) == After(l, After(l, chunks, first), rest)
  {
    if rest == [] {
      assert first + rest == first;
    } else {
      AfterConcat(l, chunks, first, rest[..|rest| - 1]);
      assert (first + rest)[..|first + rest| - 1] == first + rest[..|rest| - 1];
    }
  }

  /** The answer given to the `k`-th event of a history, if it is an arrival. */
  function AnswerAt(l: Lengths, chunks: seq<bool>, history: seq<Event>, k: nat): ChunkMarkingResult
    requires |chunks| >= TotalChunks(l) && AllPossible(l, history) && k < |history| && history[k].Arrive?
  {
    Mark(l, After(l, chunks, history[..k]), history[k].piece, history[k].chunk).1
  }

  /** In every history, once an arrival was answered `Completed`, every later arrival for that piece
      is answered `PreviouslyCompleted` until the piece is cleared: at most one per episode. */
  lemma CompletedOnce(l: Lengths, chunks: seq<bool>, history: seq<Event>, j: nat, k: nat)
    requires |chunks| >= TotalChunks(l) && AllPossible(l, history) && j < k < |history|
    requires history[j].Arrive? && history[k].Arrive? && history[k].piece == history[j].piece
    requires Clear(history[j].piece) !in history[j + 1..k]
    requires AnswerAt(l, chunks, history, j) == Completed
    ensures AnswerAt(l, chunks, history, k) == PreviouslyCompleted
  {
    var p, between := history[j].piece, history[j + 1..k];
    var bits := Step(l, After(l, chunks, history[..j]), history[j]);
    assert history[..j + 1][..j] == history[..j];
    AfterConcat(l, chunks, history[..j + 1], between);
    assert history[..j + 1] + between == history[..k];
    FullIsAll(l, bits, p);
    FullStaysFull(l, p, Received(l, bits, p), between);
    MarkingAnswer(l, bits, between, p, history[k].chunk);
  }

  /** If the arrivals fill a piece that was not full, some arrival was answered `Completed`:
      at least one per full episode. */
  lemma {:induction false} CompletedHappens(l: Lengths, chunks: seq<bool>, history: seq<Event>, p: nat) returns (k: nat)
    requires |chunks| >= TotalChunks(l) && p < TotalPieces(l) && AllPossible(l, history)
    requires !PieceFull(l, chunks, p) && PieceFull(l, After(l, chunks, history), p)
    ensures k < |history| && history[k].Arrive? && history[k].piece == p
    ensures AnswerAt(l, chunks, history, k) == Completed
  {
    var short, e := history[..|history| - 1], history[|history| - 1];
    var before := After(l, chunks, short);
    if PieceFull(l, before, p) {
      k := CompletedHappens(l, chunks, short, p);
      assert short[..k] == history[..k];
    } else {
      k := |history| - 1;
      EventEffect(l, before, e, p);
      FullIsAll(l, before, p);
      FullIsAll(l, Step(l, before, e), p);
      assert Full(l, p, Grow(p, Received(l, before, p), e));
      var none: set<nat> := {};
      assert 0 !in none && 0 < ChunksPerPiece(l, p);
    }
  }

  // ---- blocks and bytes ----

  /** A block is accepted iff it starts at a multiple of the chunk size inside its piece, and reaches
      to the next multiple or the end of the piece. */
  predicate IsBlock(l: Lengths, index: nat, begin: nat, len: nat) {
    && index < TotalPieces(l) && begin % 16384 == 0 && begin < PieceLength(l, index)
    && begin + len == Min(begin + 16384, PieceLength(l, index))
  }

  lemma BlockIsChunk(l: Lengths, index: nat, begin: nat, len: nat)
    ensures ReceivedChunk(l, index, begin, len).Some? <==> IsBlock(l, index, begin, len)
  {
    if index < TotalPieces(l) && begin < PieceLength(l, index) {
      ChunksTilePiece(l, index, begin, begin / CHUNK_SIZE);
    } else if index < TotalPieces(l) && begin % CHUNK_SIZE == 0 {
      ChunksTilePiece(l, index, 0, begin / CHUNK_SIZE);
    }
  }

  /** Byte `b` of piece `p` is in a received chunk. */
  predicate HasByte(l: Lengths, chunks: seq<bool>, p: nat, b: nat)
    requires p < TotalPieces(l) && b < PieceLength(l, p) && |chunks| >= TotalChunks(l)
  {
    ChunksTilePiece(l, p, b, 0);
    HasChunk(l, chunks, p, b / CHUNK_SIZE)
  }

  ghost predicate AllBytes(l: Lengths, chunks: seq<bool>, p: nat)
    requires p < TotalPieces(l) && |chunks| >= TotalChunks(l)
  {
    forall b: nat :: b < PieceLength(l, p) ==> HasByte(l, chunks, p, b)
  }

  /** A piece is full iff every one of its bytes was received. */
  lemma FullIsBytes(l: Lengths, chunks: seq<bool>, p: nat)
    requires p < TotalPieces(l) && |chunks| >= TotalChunks(l)
    ensures PieceFull(l, chunks, p) <==> AllBytes(l, chunks, p)
  {
    if AllBytes(l, chunks, p) {
      forall c: nat | c < ChunksPerPiece(l, p) ensures HasChunk(l, chunks, p, c) {
        ChunksTilePiece(l, p, 0, c);
        assert HasByte(l, chunks, p, c * CHUNK_SIZE);
      }
    } else {
      var b: nat :| b < PieceLength(l, p) && !HasByte(l, chunks, p, b);
      ChunksTilePiece(l, p, b, 0);
    }
  }

  /** What a tracker goes through: a block arrives, or a piece is marked broken. */
  datatype BlockEvent = Block(piece: nat, begin: nat, len: nat) | Cleared(piece: nat)

  predicate InTorrent(l: Lengths, history: seq<BlockEvent>) {
    forall k :: 0 <= k < |history| && history[k].Cleared? ==> history[k].piece < TotalPieces(l)
  }

  /** The chunk bitfield after blocks, some of them perhaps no chunks of the torrent. */
  function AfterBlocks(l: Lengths, chunks: seq<bool>, history: seq<BlockEvent>): (r: seq<bool>)
    requires |chunks| >= TotalChunks(l) && InTorrent(l, history)
    ensures |r| == |chunks|
  {
    if history == [] then chunks
    else
      var before := AfterBlocks(l, chunks, history[..|history| - 1]);
      match history[|history| - 1]
      case Block(p, begin, len) =>
        var c := ReceivedChunk(l, p, begin, len);
        if c.Some? then Mark(l, before, p, c.value).0 else before
      case Cleared(p) => FillPiece(l, before, p, false)
  }

  /** Byte `b` of piece `p` came in an accepted block since the piece was last cleared, or was there at
      the start. */
  ghost predicate ByteCame(l: Lengths, chunks: seq<bool>, history: seq<BlockEvent>, p: nat, b: nat)
    requires |chunks| >= TotalChunks(l) && p < TotalPieces(l) && b < PieceLength(l, p)
  {
    if history == [] then HasByte(l, chunks, p, b)
    else
      var before := ByteCame(l, chunks, history[..|history| - 1], p, b);
      match history[|history| - 1]
      case Block(q, begin, len) => before || (q == p && IsBlock(l, q, begin, len) && begin <= b < begin + len)
      case Cleared(q) => before && q != p
  }

  lemma ByteStep(l: Lengths, chunks: seq<bool>, e: Event, p: nat, b: nat)
    requires |chunks| >= TotalChunks(l) && Possible(l, e) && p < TotalPieces(l) && b < PieceLength(l, p)
    ensures HasByte(l, Step(l, chunks, e), p, b)
            <==> if e.piece != p then HasByte(l, chunks, p, b)
                 else e.Arrive? && (HasByte(l, chunks, p, b) || e.chunk == b / CHUNK_SIZE)
  {
    ChunksTilePiece(l, p, b, 0);
    EventEffect(l, chunks, e, p);
    var c := b / CHUNK_SIZE;
    assert HasChunk(l, chunks, p, c) <==> c in Received(l, chunks, p);
    assert HasChunk(l, Step(l, chunks, e), p, c) <==> c in Received(l, Step(l, chunks, e), p);
  }

  /** For every history of blocks, in any order, with duplicates and with blocks that are no chunks, the
      bitfield holds exactly the bytes that came since their piece was last cleared. */
  lemma {:induction false} BytesAreBlocks(l: Lengths, chunks: seq<bool>, history: seq<BlockEvent>, p: nat, b: nat)
    requires |chunks| >= TotalChunks(l) && InTorrent(l, history) && p < TotalPieces(l) && b < PieceLength(l, p)
    ensures HasByte(l, AfterBlocks(l, chunks, history), p, b) <==> ByteCame(l, chunks, history, p, b)
  {
    if history != [] {
      var short := history[..|history| - 1];
      BytesAreBlocks(l, chunks, short, p, b);
      var before := AfterBlocks(l, chunks, short);
      match history[|history| - 1]
      case Block(q, begin, len) =>
        BlockIsChunk(l, q, begin, len);
        var c := ReceivedChunk(l, q, begin, len);
        if c.Some? {
          ByteStep(l, before, Arrive(q, c.value), p, b);
          if q == p { ChunksTilePiece(l, p, b, c.value); }
        }
      case Cleared(q) => ByteStep(l, before, Clear(q), p, b);
    }
  }

  ghost predicate AllCame(l: Lengths, chunks: seq<bool>, history: seq<BlockEvent>, p: nat)
    requires |chunks| >= TotalChunks(l) && p < TotalPieces(l)
  {
    forall b: nat :: b < PieceLength(l, p) ==> ByteCame(l, chunks, history, p, b)
  }

  lemma AllCameIsFull(l: Lengths, chunks: seq<bool>, history: seq<BlockEvent>, p: nat)
    requires |chunks| >= TotalChunks(l) && InTorrent(l, history) && p < TotalPieces(l)
    ensures PieceFull(l, AfterBlocks(l, chunks, history), p) <==> AllCame(l, chunks, history, p)
  {
    FullIsBytes(l, AfterBlocks(l, chunks, history), p);
    forall b: nat | b < PieceLength(l, p)
      ensures HasByte(l, AfterBlocks(l, chunks, history), p, b) <==> ByteCame(l, chunks, history, p, b)
    {
      BytesAreBlocks(l, chunks, history, p, b);
    }
  }

  /** The answer to a block, on bytes: refused iff it is no chunk, `Completed` exactly when it brings the
      last bytes of the piece missing since it was last cleared, `PreviouslyCompleted` when none was
      missing. */
  lemma BlockAnswer(l: Lengths, chunks: seq<bool>, history: seq<BlockEvent>, p: nat, begin: nat, len: nat)
    requires |chunks| >= TotalChunks(l) && InTorrent(l, history)
    ensures ReceivedChunk(l, p, begin, len).Some? <==> IsBlock(l, p, begin, len)
    ensures IsBlock(l, p, begin, len) ==>
              var answer := Mark(l, AfterBlocks(l, chunks, history), p, ReceivedChunk(l, p, begin, len).value).1;
              && (answer == PreviouslyCompleted <==> AllCame(l, chunks, history, p))
              && (answer == Completed <==>
                    !AllCame(l, chunks, history, p) && AllCame(l, chunks, history + [Block(p, begin, len)], p))
  {
    BlockIsChunk(l, p, begin, len);
    if IsBlock(l, p, begin, len) {
      var more := history + [Block(p, begin, len)];
      assert more[..|more| - 1] == history && more[|more| - 1] == Block(p, begin, len);
      AllCameIsFull(l, chunks, history, p);
      AllCameIsFull(l, chunks, more, p);
    }
  }
}
