/** How a torrent of `total` bytes is cut into pieces, and pieces into chunks.

    Piece `p` covers bytes `[p * pieceLen, min((p + 1) * pieceLen, total))`; chunks are
    `CHUNK_SIZE` blocks inside one piece, and the chunk bitfield reserves
    `DefaultChunksPerPiece` bits for every piece, also for a short last one. */
module Lengths {

  const CHUNK_SIZE: nat := 16384

  datatype RawLengths = Lengths(total: nat, pieceLen: nat)

  type Lengths = l: RawLengths | l.total > 0 && l.pieceLen > 0 witness Lengths(1, 1)

  function Min(a: int, b: int): int { if a <= b then a else b }

  function Max(a: int, b: int): int { if a <= b then b else a }

  /** The least `r` with `a <= r * b`. */
  function CeilDiv(a: nat, b: nat): (r: nat)
    requires b > 0
    ensures (r - 1) * b < a <= r * b
  {
    var r := (a + b - 1) / b;
    assert r * b + (a + b - 1) % b == a + b - 1;
    r
  }

  function TotalPieces(l: Lengths): (n: nat)
    ensures n > 0
  {
    CeilDiv(l.total, l.pieceLen)
  }

  function PieceStart(l: Lengths, p: nat): nat { p * l.pieceLen }

  function PieceEnd(l: Lengths, p: nat): int { Min((p + 1) * l.pieceLen, l.total) }

  function PieceLength(l: Lengths, p: nat): (n: nat)
    requires p < TotalPieces(l)
    ensures 0 < n <= l.pieceLen && PieceStart(l, p) + n == PieceEnd(l, p) <= l.total
  {
    StepProduct(p, l.pieceLen);
    MulMonotone(p, TotalPieces(l) - 1, l.pieceLen);
    PieceEnd(l, p) - PieceStart(l, p)
  }

  /** The piece that holds byte `b`. */
  function PieceOf(l: Lengths, b: nat): nat { b / l.pieceLen }

  function ChunksPerPiece(l: Lengths, p: nat): (n: nat)
    requires p < TotalPieces(l)
    ensures 0 < n <= DefaultChunksPerPiece(l)
  {
    CeilDivMonotone(PieceLength(l, p), l.pieceLen, CHUNK_SIZE);
    CeilDiv(PieceLength(l, p), CHUNK_SIZE)
  }

  function DefaultChunksPerPiece(l: Lengths): (n: nat)
    ensures n > 0
  {
    CeilDiv(l.pieceLen, CHUNK_SIZE)
  }

  /** Where chunk `c` of piece `p` lives in the chunk bitfield. */
  function ChunkBit(l: Lengths, p: nat, c: nat): nat { p * DefaultChunksPerPiece(l) + c }

  function TotalChunks(l: Lengths): nat {
    ChunkBit(l, TotalPieces(l) - 1, ChunksPerPiece(l, TotalPieces(l) - 1))
  }

  predicate InChunkRange(l: Lengths, p: nat, k: nat)
    requires p < TotalPieces(l)
  {
    ChunkBit(l, p, 0) <= k < ChunkBit(l, p, ChunksPerPiece(l, p))
  }

  // ---- arithmetic ----

  lemma StepProduct(a: int, b: int)
    ensures (a + 1) * b == a * b + b
  {
  }

  lemma MulMonotone(a: int, b: int, c: nat)
    requires a <= b
    ensures a * c <= b * c
  {
    assert (b - a) * c >= 0;
  }

  lemma CeilDivMonotone(a: nat, b: nat, d: nat)
    requires d > 0 && a <= b
    ensures CeilDiv(a, d) <= CeilDiv(b, d)
  {
    if CeilDiv(a, d) > CeilDiv(b, d) {
      MulMonotone(CeilDiv(b, d), CeilDiv(a, d) - 1, d);
    }
  }

  /** `q == a / b` exactly when `a` lies in the `q`-th block of `b`. */
  lemma DivBlock(a: nat, b: nat, q: nat)
    requires b > 0
    ensures q == a / b <==> q * b <= a < (q + 1) * b
  {
    var d := a / b;
    assert d * b + a % b == a;
    StepProduct(d, b);
    StepProduct(q, b);
    if q < d { MulMonotone(q + 1, d, b); }
    if d < q { MulMonotone(d + 1, q, b); }
  }

  /** The blocks from that of `lo` up to that of `hi - 1` are those meeting `[lo, hi)`. */
  lemma BlocksMeeting(lo: nat, hi: nat, b: nat, q: nat)
    requires b > 0 && lo < hi
    ensures lo / b <= q < CeilDiv(hi, b) <==> q * b < hi && lo < (q + 1) * b
  {
    DivBlock(lo, b, lo / b);
    if q < lo / b { MulMonotone(q + 1, lo / b, b); }
    if q > lo / b { MulMonotone(lo / b + 1, q, b); }
    if q < CeilDiv(hi, b) { MulMonotone(q, CeilDiv(hi, b) - 1, b); }
    if q >= CeilDiv(hi, b) { MulMonotone(CeilDiv(hi, b), q, b); }
  }

  /** The blocks of an empty stretch: none on a boundary, one elsewhere. */
  lemma BlocksAtPoint(o: nat, b: nat, q: nat)
    requires b > 0
    ensures o / b <= q < CeilDiv(o, b) <==> o % b != 0 && q == o / b
  {
    var d, e := o / b, CeilDiv(o, b);
    assert d * b + o % b == o;
    StepProduct(d, b);
    if e < d { MulMonotone(e, d - 1, b); StepProduct(d - 1, b); }
    if e > d + 1 { MulMonotone(d + 1, e - 1, b); }
    if e == d { assert o % b == 0; }
    if e == d + 1 { assert o % b != 0; }
  }

  // ---- pieces tile the torrent ----

  /** Every byte of the torrent lies in exactly one piece. */
  lemma PieceOfByte(l: Lengths, b: nat, p: nat)
    requires b < l.total
    ensures PieceOf(l, b) < TotalPieces(l)
    ensures p == PieceOf(l, b) <==> PieceStart(l, p) <= b < PieceEnd(l, p)
  {
    DivBlock(b, l.pieceLen, p);
    DivBlock(b, l.pieceLen, PieceOf(l, b));
    if PieceOf(l, b) >= TotalPieces(l) {
      MulMonotone(TotalPieces(l), PieceOf(l, b), l.pieceLen);
    }
  }

  /** Consecutive pieces abut, and the last one ends with the torrent. */
  lemma PiecesAbut(l: Lengths, p: nat)
    requires p < TotalPieces(l)
    ensures p + 1 < TotalPieces(l) ==> PieceEnd(l, p) == PieceStart(l, p + 1) && PieceEnd(l, p) < l.total
    ensures p + 1 == TotalPieces(l) ==> PieceEnd(l, p) == l.total
  {
    if p + 1 < TotalPieces(l) {
      MulMonotone(p + 1, TotalPieces(l) - 1, l.pieceLen);
    }
  }

  /** The chunks of a piece tile it: every byte of the piece lies in exactly one of them, and none is
      empty. */
  lemma ChunksTilePiece(l: Lengths, p: nat, b: nat, c: nat)
    requires p < TotalPieces(l) && b < PieceLength(l, p)
    ensures b / CHUNK_SIZE < ChunksPerPiece(l, p)
    ensures c < ChunksPerPiece(l, p) && c * CHUNK_SIZE <= b < Min(c * CHUNK_SIZE + CHUNK_SIZE, PieceLength(l, p))
            <==> c == b / CHUNK_SIZE
    ensures c < ChunksPerPiece(l, p) <==> c * CHUNK_SIZE < PieceLength(l, p)
  {
  }

  /** The bits of consecutive pieces follow each other without a gap, from the first bit on. */
  lemma ChunkBitsAbut(l: Lengths, p: nat)
    requires p < TotalPieces(l)
    ensures ChunkBit(l, 0, 0) == 0
    ensures ChunkBit(l, p, ChunksPerPiece(l, p))
            == if p + 1 < TotalPieces(l) then ChunkBit(l, p + 1, 0) else TotalChunks(l)
  {
    if p + 1 < TotalPieces(l) {
      PiecesAbut(l, p);
      StepProduct(p, l.pieceLen);
      assert PieceLength(l, p) == l.pieceLen;
      StepProduct(p, DefaultChunksPerPiece(l));
    }
  }

  /** Two layouts: pieces of two chunks and a byte, and pieces of two chunks, with a last piece of one
      byte each. */
  lemma ExampleLayouts()
    ensures var l := Lengths(65539, 32769);
            TotalPieces(l) == 3 && DefaultChunksPerPiece(l) == 3 && ChunksPerPiece(l, 2) == 1 && TotalChunks(l) == 7
    ensures var l := Lengths(65537, 32768);
            TotalPieces(l) == 3 && DefaultChunksPerPiece(l) == 2 && ChunksPerPiece(l, 2) == 1 && TotalChunks(l) == 5
  {
    assert PieceLength(Lengths(65539, 32769), 2) == 1 && PieceLength(Lengths(65537, 32768), 2) == 1;
  }

  /** Chunk ranges of distinct pieces are disjoint and lie inside the chunk bitfield. */
  lemma ChunkRangesDisjoint(l: Lengths, p: nat, q: nat, k: nat)
    requires p < TotalPieces(l) && q < TotalPieces(l)
    requires InChunkRange(l, p, k)
    ensures k < TotalChunks(l)
    ensures InChunkRange(l, q, k) ==> p == q
  {
    var d := DefaultChunksPerPiece(l);
    StepProduct(p, d);
    StepProduct(q, d);
    if p < q { MulMonotone(p + 1, q, d); }
    if q < p { MulMonotone(q + 1, p, d); }
    if p < TotalPieces(l) - 1 { MulMonotone(p + 1, TotalPieces(l) - 1, d); }
  }
}
