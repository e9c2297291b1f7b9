/** The four bitfields of a chunk tracker as a value, the byte totals they imply, and the
    effect each tracker operation has on them. */
module PieceBits {
  import opened Lengths
  import opened FileLayout

  datatype HaveNeededSelected =
    HaveNeededSelected(haveBytes: nat, neededBytes: nat, selectedBytes: nat)
  {
    predicate Finished() { neededBytes == 0 }
  }

  datatype Bits = Bits(queue: seq<bool>, chunks: seq<bool>, have: seq<bool>, selected: seq<bool>)

  ghost predicate Wf(l: Lengths, b: Bits) {
    && |b.queue| == |b.selected| == |b.have| >= TotalPieces(l)
    && |b.chunks| >= TotalChunks(l)
  }

  // ---- byte totals ----

  function BytesWhere(l: Lengths, f: seq<bool>, n: nat): nat
    requires n <= |f| && n <= TotalPieces(l)
  {
    if n == 0 then 0 else BytesWhere(l, f, n - 1) + (if f[n - 1] then PieceLength(l, n - 1) else 0)
  }

  function Needed(have: seq<bool>, selected: seq<bool>): (r: seq<bool>)
    requires |have| == |selected|
  {
    seq(|have|, p requires 0 <= p < |have| => selected[p] && !have[p])
  }

  /** The byte totals of the first `n` pieces. */
  function Totals(l: Lengths, have: seq<bool>, selected: seq<bool>, n: nat): HaveNeededSelected
    requires |have| == |selected| >= n && n <= TotalPieces(l)
  {
    HaveNeededSelected(
      BytesWhere(l, have, n), BytesWhere(l, Needed(have, selected), n), BytesWhere(l, selected, n))
  }

  lemma {:induction false} BytesAgree(l: Lengths, f: seq<bool>, g: seq<bool>, n: nat)
    requires n <= |f| && n <= |g| && n <= TotalPieces(l)
    requires forall p :: 0 <= p < n ==> f[p] == g[p]
    ensures BytesWhere(l, f, n) == BytesWhere(l, g, n)
  {
    if n > 0 { BytesAgree(l, f, g, n - 1); }
  }

  /** Setting one bit adds exactly that piece's length. */
  lemma {:induction false} BytesSetOne(l: Lengths, f: seq<bool>, p: nat, n: nat)
    requires p < n <= |f| && n <= TotalPieces(l) && !f[p]
    ensures BytesWhere(l, f[p := true], n) == BytesWhere(l, f, n) + PieceLength(l, p)
  {
    if p == n - 1 {
      BytesAgree(l, f[p := true], f, n - 1);
    } else {
      BytesSetOne(l, f, p, n - 1);
    }
  }

  lemma {:induction false} BytesSubset(l: Lengths, f: seq<bool>, g: seq<bool>, n: nat)
    requires n <= |f| && n <= |g| && n <= TotalPieces(l)
    requires forall p :: 0 <= p < n && f[p] ==> g[p]
    ensures BytesWhere(l, f, n) <= BytesWhere(l, g, n)
  {
    if n > 0 { BytesSubset(l, f, g, n - 1); }
  }

  lemma {:induction false} BytesZero(l: Lengths, f: seq<bool>, n: nat)
    requires n <= |f| && n <= TotalPieces(l)
    ensures BytesWhere(l, f, n) == 0 <==> forall p :: 0 <= p < n ==> !f[p]
  {
    if n > 0 {
      BytesZero(l, f, n - 1);
      assert f[n - 1] ==> PieceLength(l, n - 1) > 0;
    }
  }

  /** `progress` never underflows, and `finished` means selected is a subset of have. */
  lemma TotalsMeaning(l: Lengths, b: Bits)
    requires Wf(l, b)
    ensures var t := Totals(l, b.have, b.selected, TotalPieces(l));
            && t.neededBytes <= t.selectedBytes
            && (t.Finished() <==> forall p :: 0 <= p < TotalPieces(l) && b.selected[p] ==> b.have[p])
  {
    var needed := Needed(b.have, b.selected);
    BytesSubset(l, needed, b.selected, TotalPieces(l));
    BytesZero(l, needed, TotalPieces(l));
    if BytesWhere(l, needed, TotalPieces(l)) == 0 {
      forall p | 0 <= p < TotalPieces(l) && b.selected[p] ensures b.have[p] {
        assert !needed[p];
      }
    }
  }

  /** What getting one more piece does to the totals; in particular nothing underflows. */
  lemma TotalsOnHave(l: Lengths, have: seq<bool>, selected: seq<bool>, p: nat)
    requires |have| == |selected| >= TotalPieces(l)
    requires p < TotalPieces(l) && !have[p]
    ensures var n := TotalPieces(l);
            var t, t' := Totals(l, have, selected, n), Totals(l, have[p := true], selected, n);
            && t'.haveBytes == t.haveBytes + PieceLength(l, p)
            && t'.selectedBytes == t.selectedBytes
            && t.neededBytes == t'.neededBytes + (if selected[p] then PieceLength(l, p) else 0)
  {
    var n := TotalPieces(l);
    BytesSetOne(l, have, p, n);
    var after := Needed(have[p := true], selected);
    if selected[p] {
      BytesSetOne(l, after, p, n);
      assert after[p := true] == Needed(have, selected);
    } else {
      assert after == Needed(have, selected);
    }
  }

  // ---- chunk bits ----

  function Fill(s: seq<bool>, lo: nat, hi: nat, v: bool): (r: seq<bool>) {
    seq(|s|, k requires 0 <= k < |s| => if lo <= k < hi then v else s[k])
  }

  function FillPiece(l: Lengths, chunks: seq<bool>, p: nat, v: bool): seq<bool>
    requires p < TotalPieces(l)
  {
    Fill(chunks, ChunkBit(l, p, 0), ChunkBit(l, p, ChunksPerPiece(l, p)), v)
  }

  predicate HasChunk(l: Lengths, chunks: seq<bool>, p: nat, c: nat)
    requires p < TotalPieces(l) && c < ChunksPerPiece(l, p) && |chunks| >= TotalChunks(l)
  {
    ChunkRangesDisjoint(l, p, p, ChunkBit(l, p, c));
    chunks[ChunkBit(l, p, c)]
  }

  /** Filling one piece leaves the chunks of every other piece alone. */
  lemma FillPieceEffect(l: Lengths, chunks: seq<bool>, p: nat, v: bool)
    requires p < TotalPieces(l) && |chunks| >= TotalChunks(l)
    ensures forall q, c :: 0 <= q < TotalPieces(l) && 0 <= c < ChunksPerPiece(l, q) ==>
              HasChunk(l, FillPiece(l, chunks, p, v), q, c) == (if q == p then v else HasChunk(l, chunks, q, c))
  {
    forall q, c | 0 <= q < TotalPieces(l) && 0 <= c < ChunksPerPiece(l, q)
      ensures HasChunk(l, FillPiece(l, chunks, p, v), q, c) == (if q == p then v else HasChunk(l, chunks, q, c))
    {
      ChunkRangesDisjoint(l, q, p, ChunkBit(l, q, c));
    }
  }

  predicate PieceFull(l: Lengths, chunks: seq<bool>, p: nat)
    requires p < TotalPieces(l) && |chunks| >= TotalChunks(l)
  {
    forall c :: 0 <= c < ChunksPerPiece(l, p) ==> HasChunk(l, chunks, p, c)
  }

  // ---- effects of the operations ----

  function MarkBroken(l: Lengths, b: Bits, p: nat): Bits
    requires Wf(l, b) && p < TotalPieces(l)
  {
    if b.have[p] then b
    else b.(queue := b.queue[p := true], chunks := FillPiece(l, b.chunks, p, false))
  }

  /** Pieces of `ps` not yet had are queued again and lose their chunks; nothing else changes. */
  ghost predicate Broken(l: Lengths, b: Bits, ps: set<nat>, b': Bits) {
    && Wf(l, b) && Wf(l, b')
    && b'.have == b.have && b'.selected == b.selected && |b'.chunks| == |b.chunks|
    && (forall p: nat :: p < |b.have| ==> b'.queue[p] == (b.queue[p] || (p in ps && !b.have[p])))
    && (forall p, c :: 0 <= p < TotalPieces(l) && 0 <= c < ChunksPerPiece(l, p) ==>
          HasChunk(l, b'.chunks, p, c) == (HasChunk(l, b.chunks, p, c) && !(p in ps && !b.have[p])))
  }

  lemma BrokenNone(l: Lengths, b: Bits)
    requires Wf(l, b)
    ensures Broken(l, b, {}, b)
  {
  }

  lemma BrokenStep(l: Lengths, b: Bits, ps: set<nat>, b': Bits, p: nat)
    requires Broken(l, b, ps, b') && p < TotalPieces(l)
    ensures Broken(l, b, ps + {p}, MarkBroken(l, b', p))
  {
    FillPieceEffect(l, b'.chunks, p, false);
  }

  /** Reselection of one piece. */
  function SelectPiece(l: Lengths, b: Bits, p: nat, chosen: bool): Bits
    requires Wf(l, b) && p < TotalPieces(l)
  {
    var b1 := b.(selected := b.selected[p := chosen]);
    if b.have[p] then b1
    else if chosen then MarkBroken(l, b1, p)
    else b1.(queue := b1.queue[p := false])
  }

  /** Byte `b` of the torrent belongs to a chosen file. */
  ghost predicate ChosenByte(lens: seq<nat>, only: set<nat>, b: nat) {
    exists i :: i in only && InFile(lens, i, b)
  }

  /** Some byte of `[lo, hi)` belongs to a chosen file. */
  ghost predicate Chosen(lens: seq<nat>, only: set<nat>, lo: int, hi: int) {
    exists b: nat :: lo <= b < hi && ChosenByte(lens, only, b)
  }

  ghost predicate PieceChosen(l: Lengths, lens: seq<nat>, only: set<nat>, p: nat) {
    Chosen(lens, only, PieceStart(l, p), PieceEnd(l, p))
  }

  /** Reselection of the first `n` pieces. */
  ghost function Reselect(l: Lengths, lens: seq<nat>, only: set<nat>, b: Bits, n: nat): (r: Bits)
    requires Wf(l, b) && n <= TotalPieces(l)
    ensures Wf(l, r) && r.have == b.have && |r.have| == |b.have| && |r.chunks| == |b.chunks|
  {
    if n == 0 then b
    else SelectPiece(l, Reselect(l, lens, only, b, n - 1), n - 1, PieceChosen(l, lens, only, n - 1))
  }

  lemma SelectPieceChunks(l: Lengths, b: Bits, p: nat, chosen: bool)
    requires Wf(l, b) && p < TotalPieces(l)
    ensures var r := SelectPiece(l, b, p, chosen);
            forall q, c :: 0 <= q < TotalPieces(l) && 0 <= c < ChunksPerPiece(l, q) ==>
              HasChunk(l, r.chunks, q, c) == (HasChunk(l, b.chunks, q, c) && !(q == p && chosen && !b.have[p]))
  {
    FillPieceEffect(l, b.chunks, p, false);
  }

  lemma {:induction false} ReselectSelected(l: Lengths, lens: seq<nat>, only: set<nat>, b: Bits, n: nat, p: nat)
    requires Wf(l, b) && n <= TotalPieces(l) && p < |b.have|
    ensures Reselect(l, lens, only, b, n).selected[p]
            == if p < n then PieceChosen(l, lens, only, p) else b.selected[p]
  {
    if n > 0 { ReselectSelected(l, lens, only, b, n - 1, p); }
  }

  lemma {:induction false} ReselectQueue(l: Lengths, lens: seq<nat>, only: set<nat>, b: Bits, n: nat, p: nat)
    requires Wf(l, b) && n <= TotalPieces(l) && p < |b.have|
    ensures Reselect(l, lens, only, b, n).queue[p]
            == if b.have[p] || p >= n then b.queue[p] else PieceChosen(l, lens, only, p)
  {
    if n > 0 { ReselectQueue(l, lens, only, b, n - 1, p); }
  }

  lemma {:induction false} ReselectChunks(l: Lengths, lens: seq<nat>, only: set<nat>, b: Bits, n: nat)
    requires Wf(l, b) && n <= TotalPieces(l)
    ensures forall p: nat, c :: p < TotalPieces(l) && 0 <= c < ChunksPerPiece(l, p) ==>
              HasChunk(l, Reselect(l, lens, only, b, n).chunks, p, c)
                == (HasChunk(l, b.chunks, p, c) && !(p < n && PieceChosen(l, lens, only, p) && !b.have[p]))
  {
    if n > 0 {
      ReselectChunks(l, lens, only, b, n - 1);
      SelectPieceChunks(l, Reselect(l, lens, only, b, n - 1), n - 1, PieceChosen(l, lens, only, n - 1));
    }
  }

  /** Reselection, bit by bit: a piece is selected iff one of its bytes is in a chosen file, the
      queue equals the selection on pieces not yet had, and exactly the newly queued pieces lose
      their chunks. Had pieces and everything past the first `n` pieces keep their bits. */
  lemma ReselectEffect(l: Lengths, lens: seq<nat>, only: set<nat>, b: Bits, n: nat)
    requires Wf(l, b) && n <= TotalPieces(l)
    ensures var r := Reselect(l, lens, only, b, n);
            && (forall p :: 0 <= p < n ==> (r.selected[p] <==> PieceChosen(l, lens, only, p)))
            && (forall p :: n <= p < |b.have| ==> r.selected[p] == b.selected[p])
            && (forall p :: 0 <= p < |b.have| ==>
                  r.queue[p] == (if b.have[p] || p >= n then b.queue[p] else r.selected[p]))
            && (forall p, c :: 0 <= p < TotalPieces(l) && 0 <= c < ChunksPerPiece(l, p) ==>
                  HasChunk(l, r.chunks, p, c)
                    == (HasChunk(l, b.chunks, p, c) && !(p < n && r.selected[p] && !b.have[p])))
  {
    var r := Reselect(l, lens, only, b, n);
    forall p: nat | p < |b.have|
      ensures r.selected[p] == if p < n then PieceChosen(l, lens, only, p) else b.selected[p]
      ensures r.queue[p] == if b.have[p] || p >= n then b.queue[p] else PieceChosen(l, lens, only, p)
    {
      ReselectSelected(l, lens, only, b, n, p);
      ReselectQueue(l, lens, only, b, n, p);
    }
    ReselectChunks(l, lens, only, b, n);
  }

  /** Splitting a stretch of bytes splits the question whether it is chosen. */
  lemma ChosenSplit(lens: seq<nat>, only: set<nat>, lo: int, mid: int, hi: int)
    requires lo <= mid <= hi
    ensures Chosen(lens, only, lo, hi) <==> Chosen(lens, only, lo, mid) || Chosen(lens, only, mid, hi)
  {
    if Chosen(lens, only, lo, hi) {
      var b: nat :| lo <= b < hi && ChosenByte(lens, only, b);
      assert b < mid ==> lo <= b < mid;
    }
  }

  /** Inside one file the question is just whether that file is chosen. */
  lemma ChosenInFile(lens: seq<nat>, only: set<nat>, i: nat, lo: nat, hi: nat)
    requires i < |lens| && Offset(lens, i) <= lo < hi <= Offset(lens, i + 1)
    ensures Chosen(lens, only, lo, hi) <==> i in only
  {
    if Chosen(lens, only, lo, hi) {
      var b: nat :| lo <= b < hi && ChosenByte(lens, only, b);
      var j :| j in only && InFile(lens, j, b);
      OneOwner(lens, i, j, b);
    }
    if i in only {
      assert InFile(lens, i, lo);
      assert ChosenByte(lens, only, lo);
    }
  }
}
