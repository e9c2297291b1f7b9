/** The files of a torrent laid end to end: where each starts, which bytes it owns, and
    which pieces its recorded piece range names. Files may be empty. */
module FileLayout {
  import opened Lengths

  /** Bytes before file `i`; `Offset(lens, |lens|)` is the length of all files together. */
  function Offset(lens: seq<nat>, i: nat): nat
    requires i <= |lens|
  {
    if i == 0 then 0 else Offset(lens, i - 1) + lens[i - 1]
  }

  function TotalLength(lens: seq<nat>): nat { Offset(lens, |lens|) }

  /** Byte `b` of the torrent belongs to file `i`. */
  predicate InFile(lens: seq<nat>, i: nat, b: nat) {
    i < |lens| && Offset(lens, i) <= b < Offset(lens, i + 1)
  }

  /** The recorded range of pieces of a file: `offset / pl .. ceil((offset + len) / pl)`. */
  function RangeStart(l: Lengths, lens: seq<nat>, i: nat): nat
    requires i < |lens|
  {
    Offset(lens, i) / l.pieceLen
  }

  function RangeEnd(l: Lengths, lens: seq<nat>, i: nat): nat
    requires i < |lens|
  {
    CeilDiv(Offset(lens, i) + lens[i], l.pieceLen)
  }

  predicate InRange(l: Lengths, lens: seq<nat>, i: nat, p: nat) {
    i < |lens| && RangeStart(l, lens, i) <= p < RangeEnd(l, lens, i)
  }

  lemma {:induction false} OffsetMonotone(lens: seq<nat>, i: nat, j: nat)
    requires i <= j <= |lens|
    ensures Offset(lens, i) <= Offset(lens, j)
    decreases j
  {
    if i < j {
      OffsetMonotone(lens, i, j - 1);
    }
  }

  lemma OneOwner(lens: seq<nat>, i: nat, j: nat, b: nat)
    requires InFile(lens, i, b) && InFile(lens, j, b)
    ensures i == j
  {
    if i < j { OffsetMonotone(lens, i + 1, j); }
    if j < i { OffsetMonotone(lens, j + 1, i); }
  }

  /** Every byte below the end of the first `n` files belongs to one of them. */
  lemma {:induction false} Owner(lens: seq<nat>, n: nat, b: nat) returns (i: nat)
    requires n <= |lens| && b < Offset(lens, n)
    ensures i < n && InFile(lens, i, b)
  {
    if b >= Offset(lens, n - 1) {
      i := n - 1;
    } else {
      i := Owner(lens, n - 1, b);
    }
  }

  /** A non-empty file's range names exactly the pieces holding one of its bytes. */
  lemma RangeIsOverlap(l: Lengths, lens: seq<nat>, i: nat, p: nat)
    requires i < |lens| && lens[i] > 0
    ensures InRange(l, lens, i, p) <==> PieceStart(l, p) < Offset(lens, i + 1) && Offset(lens, i) < PieceStart(l, p + 1)
  {
    BlocksMeeting(Offset(lens, i), Offset(lens, i + 1), l.pieceLen, p);
  }

  /** An empty file's range is empty on a piece boundary, and one piece elsewhere. */
  lemma EmptyFileRange(l: Lengths, lens: seq<nat>, i: nat, p: nat)
    requires i < |lens| && lens[i] == 0
    ensures InRange(l, lens, i, p) <==> Offset(lens, i) % l.pieceLen != 0 && p == Offset(lens, i) / l.pieceLen
  {
    BlocksAtPoint(Offset(lens, i), l.pieceLen, p);
  }

  /** No recorded range reaches past the last piece. */
  lemma RangeInTorrent(l: Lengths, lens: seq<nat>, i: nat)
    requires i < |lens| && TotalLength(lens) <= l.total
    ensures RangeEnd(l, lens, i) <= TotalPieces(l)
  {
    OffsetMonotone(lens, i + 1, |lens|);
    CeilDivMonotone(Offset(lens, i) + lens[i], l.total, l.pieceLen);
  }

  /** The bytes of piece `p` that lie in file `i`. */
  function SizeInFile(l: Lengths, lens: seq<nat>, p: nat, i: nat): nat
    requires i < |lens|
  {
    Max(0, Min(PieceEnd(l, p), Offset(lens, i + 1)) - Max(PieceStart(l, p), Offset(lens, i)))
  }

  /** Outside its range a file holds no byte of the piece; inside, a non-empty file holds some. */
  lemma SizeInFilePositive(l: Lengths, lens: seq<nat>, p: nat, i: nat)
    requires i < |lens| && TotalLength(lens) <= l.total
    ensures SizeInFile(l, lens, p, i) > 0 <==> lens[i] > 0 && InRange(l, lens, i, p)
  {
    OffsetMonotone(lens, i + 1, |lens|);
    if lens[i] > 0 { RangeIsOverlap(l, lens, i, p); }
    StepProduct(p, l.pieceLen);
  }

  /** The bytes that piece `p` and file `i` share are consecutive, and there are `SizeInFile` of them. */
  lemma SharedBytes(l: Lengths, lens: seq<nat>, p: nat, i: nat, b: nat)
    requires i < |lens| && p < TotalPieces(l)
    ensures var lo := Max(p * l.pieceLen, Offset(lens, i));
            (PieceStart(l, p) <= b < PieceEnd(l, p) && InFile(lens, i, b)) <==> lo <= b < lo + SizeInFile(l, lens, p, i)
  {
  }

  function SizeInFirst(l: Lengths, lens: seq<nat>, p: nat, n: nat): nat
    requires n <= |lens|
  {
    if n == 0 then 0 else SizeInFirst(l, lens, p, n - 1) + SizeInFile(l, lens, p, n - 1)
  }

  /** The parts of a piece in all the files add up to the piece. */
  lemma {:induction false} FilesSharePiece(l: Lengths, lens: seq<nat>, p: nat, n: nat)
    requires n <= |lens| && p < TotalPieces(l)
    ensures SizeInFirst(l, lens, p, n) == Max(0, Min(PieceEnd(l, p), Offset(lens, n)) - PieceStart(l, p))
  {
    if n > 0 {
      FilesSharePiece(l, lens, p, n - 1);
      assert PieceLength(l, p) > 0;
    }
  }
}
