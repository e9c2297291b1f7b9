/** Selecting pieces from chosen files: the start-up computation fills recorded piece ranges,
    the run-time one walks bytes. They agree up to chosen empty files. */
module FileSelection {
  import opened Lengths
  import opened FileLayout
  import opened PieceBits
  import opened Outcomes
  import opened ChunkTracker

  predicate Picked(only: Option<set<nat>>, i: nat) { only.None? || i in only.value }

  /** Start-up selection: every piece in the recorded range of a picked file. */
  method ComputeSelectedPieces(l: Lengths, lens: seq<nat>, only: Option<set<nat>>) returns (bits: seq<bool>)
    ensures |bits| == 8 * CeilDiv(TotalPieces(l), 8)
    ensures forall p :: 0 <= p < |bits| ==>
              (bits[p] <==> exists i :: 0 <= i < |lens| && Picked(only, i) && Fits(l, lens, i) && InRange(l, lens, i, p))
    ensures TotalLength(lens) <= l.total ==> forall i :: 0 <= i < |lens| ==> Fits(l, lens, i)
    ensures only.Some? && TotalLength(lens) == l.total ==>
              forall p: nat :: p < TotalPieces(l) ==> (bits[p] <==> exists i: nat :: i in only.value && InRange(l, lens, i, p))
    ensures only.None? && TotalLength(lens) == l.total ==> forall p: nat :: p < TotalPieces(l) ==> bits[p]
  {
    bits := seq(8 * CeilDiv(TotalPieces(l), 8), _ => false);
    var i := 0;
    while i < |lens|
      invariant 0 <= i <= |lens|
      invariant |bits| == 8 * CeilDiv(TotalPieces(l), 8)
      invariant forall p :: 0 <= p < |bits| ==>
                  (bits[p] <==> exists j :: 0 <= j < i && Picked(only, j) && Fits(l, lens, j) && InRange(l, lens, j, p))
    {
      if Picked(only, i) && Fits(l, lens, i) {
        bits := Fill(bits, RangeStart(l, lens, i), RangeEnd(l, lens, i), true);
      }
      i := i + 1;
    }
    if TotalLength(lens) <= l.total {
      forall j | 0 <= j < |lens| ensures Fits(l, lens, j) { RangeInTorrent(l, lens, j); }
    }
    if only.None? && TotalLength(lens) == l.total {
      forall p: nat | p < TotalPieces(l) ensures bits[p] {
        var j := SomeFile(l, lens, p);
        assert Picked(only, j) && Fits(l, lens, j);
      }
    }
  }

  /** Every piece is in the range of some file. */
  lemma SomeFile(l: Lengths, lens: seq<nat>, p: nat) returns (i: nat)
    requires TotalLength(lens) == l.total && p < TotalPieces(l)
    ensures i < |lens| && InRange(l, lens, i, p)
  {
    assert PieceLength(l, p) > 0;
    i := Owner(lens, |lens|, PieceStart(l, p));
    StepProduct(p, l.pieceLen);
    RangeIsOverlap(l, lens, i, p);
  }

  /** The recorded range lies inside the bitfield; a file whose range does not is skipped. */
  predicate Fits(l: Lengths, lens: seq<nat>, i: nat) {
    i < |lens| && RangeEnd(l, lens, i) <= 8 * CeilDiv(TotalPieces(l), 8)
  }

  ghost predicate InPickedRange(l: Lengths, lens: seq<nat>, only: set<nat>, p: nat) {
    exists i: nat :: i in only && InRange(l, lens, i, p)
  }

  /** A piece holds a byte of file `i` iff the file is non-empty and its range names the piece. */
  lemma FileTouchesPiece(l: Lengths, lens: seq<nat>, i: nat, p: nat)
    requires i < |lens| && TotalLength(lens) == l.total && p < TotalPieces(l)
    ensures (exists b: nat :: PieceStart(l, p) <= b < PieceEnd(l, p) && InFile(lens, i, b))
            <==> lens[i] > 0 && InRange(l, lens, i, p)
  {
    OffsetMonotone(lens, i + 1, |lens|);
    assert PieceLength(l, p) > 0;
    StepProduct(p, l.pieceLen);
    if lens[i] > 0 {
      RangeIsOverlap(l, lens, i, p);
      if InRange(l, lens, i, p) {
        var b: nat := Max(PieceStart(l, p), Offset(lens, i));
        assert PieceStart(l, p) <= b < PieceEnd(l, p) && InFile(lens, i, b);
      }
    }
  }

  /** The piece is in the range of a chosen non-empty file. */
  ghost predicate InNonEmpty(l: Lengths, lens: seq<nat>, only: set<nat>, p: nat) {
    exists i: nat :: i in only && InRange(l, lens, i, p) && lens[i] > 0
  }

  /** Run-time selection in terms of recorded ranges: chosen non-empty files only. */
  lemma ChosenByRange(l: Lengths, lens: seq<nat>, only: set<nat>, p: nat)
    requires TotalLength(lens) == l.total && p < TotalPieces(l)
    ensures PieceChosen(l, lens, only, p) <==> InNonEmpty(l, lens, only, p)
  {
    if PieceChosen(l, lens, only, p) {
      var b: nat :| PieceStart(l, p) <= b < PieceEnd(l, p) && ChosenByte(lens, only, b);
      var i :| i in only && InFile(lens, i, b);
      FileTouchesPiece(l, lens, i, p);
    }
    if i: nat :| i in only && InRange(l, lens, i, p) && lens[i] > 0 {
      FileTouchesPiece(l, lens, i, p);
      var b: nat :| PieceStart(l, p) <= b < PieceEnd(l, p) && InFile(lens, i, b);
      assert ChosenByte(lens, only, b);
    }
  }

  /** An empty file lying strictly inside a piece. */
  predicate EmptyInside(l: Lengths, lens: seq<nat>, i: nat) {
    i < |lens| && lens[i] == 0 && Offset(lens, i) % l.pieceLen != 0
  }

  ghost predicate EmptyPicked(l: Lengths, lens: seq<nat>, only: set<nat>, p: nat) {
    exists i: nat :: i in only && EmptyInside(l, lens, i) && Offset(lens, i) / l.pieceLen == p
  }

  /** Recorded ranges select what the walk selects, plus the pieces around chosen empty files. */
  lemma RangesSelect(l: Lengths, lens: seq<nat>, only: set<nat>, p: nat)
    requires TotalLength(lens) == l.total && p < TotalPieces(l)
    ensures InPickedRange(l, lens, only, p) <==> PieceChosen(l, lens, only, p) || EmptyPicked(l, lens, only, p)
  {
    ChosenByRange(l, lens, only, p);
    if InPickedRange(l, lens, only, p) {
      var i: nat :| i in only && InRange(l, lens, i, p);
      if lens[i] == 0 { EmptyFileRange(l, lens, i, p); }
    }
    if EmptyPicked(l, lens, only, p) {
      var i: nat :| i in only && EmptyInside(l, lens, i) && Offset(lens, i) / l.pieceLen == p;
      EmptyFileRange(l, lens, i, p);
    }
  }

  lemma EmptyInTorrent(l: Lengths, lens: seq<nat>, i: nat)
    requires TotalLength(lens) == l.total && EmptyInside(l, lens, i)
    ensures Offset(lens, i) / l.pieceLen < TotalPieces(l)
  {
    EmptyFileRange(l, lens, i, Offset(lens, i) / l.pieceLen);
    RangeInTorrent(l, lens, i);
  }

  ghost predicate SameSelection(l: Lengths, lens: seq<nat>, only: set<nat>, p: nat) {
    InPickedRange(l, lens, only, p) <==> PieceChosen(l, lens, only, p)
  }

  /** The two selections agree on every piece if and only if every chosen empty file inside a
      piece shares it with a chosen non-empty file; in particular when no chosen file is empty. */
  lemma SelectionsAgree(l: Lengths, lens: seq<nat>, only: set<nat>)
    requires TotalLength(lens) == l.total
    ensures (forall p: nat :: p < TotalPieces(l) ==> SameSelection(l, lens, only, p))
            <==> (forall i :: i in only && EmptyInside(l, lens, i) ==>
                    PieceChosen(l, lens, only, Offset(lens, i) / l.pieceLen))
  {
    if forall p: nat :: p < TotalPieces(l) ==> SameSelection(l, lens, only, p) {
      forall i | i in only && EmptyInside(l, lens, i) ensures PieceChosen(l, lens, only, Offset(lens, i) / l.pieceLen) {
        var p := Offset(lens, i) / l.pieceLen;
        EmptyInTorrent(l, lens, i);
        assert EmptyPicked(l, lens, only, p);
        RangesSelect(l, lens, only, p);
        assert SameSelection(l, lens, only, p);
      }
    } else {
      var p: nat :| p < TotalPieces(l) && !SameSelection(l, lens, only, p);
      RangesSelect(l, lens, only, p);
      var i: nat :| i in only && EmptyInside(l, lens, i) && Offset(lens, i) / l.pieceLen == p;
      assert !PieceChosen(l, lens, only, Offset(lens, i) / l.pieceLen);
    }
  }

  /** A chosen empty file inside a piece makes them differ: files of 3, 0 and 3 bytes, pieces of
      4, only the empty file chosen. */
  lemma SelectionsCanDiffer()
    ensures var l, lens := Lengths(6, 4), [3, 0, 3];
            TotalLength(lens) == l.total && InPickedRange(l, lens, {1}, 0) && !PieceChosen(l, lens, {1}, 0)
  {
    var l, lens := Lengths(6, 4), [3, 0, 3];
    assert Offset(lens, 1) == 3 && Offset(lens, 2) == 3 && Offset(lens, 3) == 6;
    EmptyFileRange(l, lens, 1, 0);
    assert InRange(l, lens, 1, 0);
    ChosenByRange(l, lens, {1}, 0);
  }

  /** The start-up selection and the run-time selection of the same files, bit against bit: they agree
      if and only if every chosen empty file lying inside a piece shares it with a chosen non-empty
      file. */
  method CompareSelections(tracker: ChunkTracker, lens: seq<nat>, only: set<nat>) returns (startUp: seq<bool>, agree: bool)
    requires tracker.Valid() && TotalLength(lens) == tracker.lengths.total
    modifies tracker`queue, tracker`chunks, tracker`selected, tracker`hns
    ensures |startUp| >= TotalPieces(tracker.lengths) && |tracker.selected| >= TotalPieces(tracker.lengths)
    ensures agree <==> forall p :: 0 <= p < TotalPieces(tracker.lengths) ==> startUp[p] == tracker.selected[p]
    ensures agree <==> NoLoneEmpty(tracker.lengths, lens, only)
  {
    ghost var b0 := tracker.State();
    startUp := ComputeSelectedPieces(tracker.lengths, lens, Some(only));
    var _ := tracker.UpdateOnlyFiles(lens, only);
    agree := forall p :: 0 <= p < TotalPieces(tracker.lengths) ==> startUp[p] == tracker.selected[p];
    BothSelections(tracker.lengths, lens, only, b0, startUp);
  }

  /** Every chosen empty file lying inside a piece shares it with a chosen non-empty file. */
  ghost predicate NoLoneEmpty(l: Lengths, lens: seq<nat>, only: set<nat>) {
    forall i: nat :: i in only && EmptyInside(l, lens, i) ==> InNonEmpty(l, lens, only, Offset(lens, i) / l.pieceLen)
  }

  /** What the two bitfields say, given how each was computed. */
  lemma BothSelections(l: Lengths, lens: seq<nat>, only: set<nat>, b0: Bits, startUp: seq<bool>)
    requires Wf(l, b0) && TotalLength(lens) == l.total && |startUp| >= TotalPieces(l)
    requires forall p: nat :: p < TotalPieces(l) ==> (startUp[p] <==> exists i: nat :: i in only && InRange(l, lens, i, p))
    ensures (forall p :: 0 <= p < TotalPieces(l) ==> startUp[p] == Reselect(l, lens, only, b0, TotalPieces(l)).selected[p])
            <==> NoLoneEmpty(l, lens, only)
  {
    SelectionsAgree(l, lens, only);
    forall p: nat | p < TotalPieces(l)
      ensures startUp[p] == Reselect(l, lens, only, b0, TotalPieces(l)).selected[p] <==> SameSelection(l, lens, only, p)
    {
      ReselectSelected(l, lens, only, b0, TotalPieces(l), p);
    }
    LoneEmptyIff(l, lens, only);
  }

  lemma LoneEmptyIff(l: Lengths, lens: seq<nat>, only: set<nat>)
    requires TotalLength(lens) == l.total
    ensures NoLoneEmpty(l, lens, only)
            <==> forall i :: i in only && EmptyInside(l, lens, i) ==> PieceChosen(l, lens, only, Offset(lens, i) / l.pieceLen)
  {
    forall i: nat | i in only && EmptyInside(l, lens, i)
      ensures PieceChosen(l, lens, only, Offset(lens, i) / l.pieceLen) <==> InNonEmpty(l, lens, only, Offset(lens, i) / l.pieceLen)
    {
      EmptyInTorrent(l, lens, i);
      ChosenByRange(l, lens, only, Offset(lens, i) / l.pieceLen);
    }
  }
}
