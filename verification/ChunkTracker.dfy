/** The chunk tracker: four bitfields, per-file byte counters and the cached totals that must
    stay in sync with them. */
module ChunkTracker {
  import opened Lengths
  import opened FileLayout
  import opened PieceBits
  import opened FileCounters
  import opened ChunkMarking
  import opened Outcomes

  /** The chunks of the first `n` pieces mirror `have`, and no other bit is set. */
  ghost predicate Mirrors(l: Lengths, bits: seq<bool>, have: seq<bool>, n: nat)
    requires n <= |have|
  {
    && |bits| >= TotalChunks(l)
    && (forall p, c :: 0 <= p < TotalPieces(l) && 0 <= c < ChunksPerPiece(l, p) ==>
          HasChunk(l, bits, p, c) == (p < n && have[p]))
    && (forall k :: 0 <= k < |bits| && bits[k] ==> InSomePiece(l, k))
  }

  ghost predicate InSomePiece(l: Lengths, k: nat) {
    exists p: nat :: p < TotalPieces(l) && InChunkRange(l, p, k)
  }

  lemma MirrorNone(l: Lengths, bits: seq<bool>, have: seq<bool>)
    requires |bits| >= TotalChunks(l) && forall k :: 0 <= k < |bits| ==> !bits[k]
    ensures Mirrors(l, bits, have, 0)
  {
    forall p: nat, c: nat | p < TotalPieces(l) && c < ChunksPerPiece(l, p) ensures !HasChunk(l, bits, p, c) {
      ChunkRangesDisjoint(l, p, p, ChunkBit(l, p, c));
    }
  }

  lemma MirrorStep(l: Lengths, bits: seq<bool>, have: seq<bool>, p: nat)
    requires p < TotalPieces(l) <= |have| && Mirrors(l, bits, have, p)
    ensures Mirrors(l, if have[p] then FillPiece(l, bits, p, true) else bits, have, p + 1)
  {
    if have[p] {
      FillPieceEffect(l, bits, p, true);
      var bits' := FillPiece(l, bits, p, true);
      forall k | 0 <= k < |bits'| && bits'[k] ensures InSomePiece(l, k) {
        assert InChunkRange(l, p, k) || bits[k];
      }
    }
  }

  /** One bit per chunk, set for every chunk of a had piece and clear elsewhere. */
  method ComputeChunkHaveStatus(l: Lengths, have: seq<bool>) returns (r: Result<seq<bool>>)
    ensures r.Ok? <==> |have| >= TotalPieces(l)
    ensures r.Ok? ==> |r.value| == 8 * CeilDiv(TotalChunks(l), 8) && Mirrors(l, r.value, have, TotalPieces(l))
  {
    if |have| < TotalPieces(l) {
      return Err("have_pieces is shorter than the torrent");
    }
    var bits := seq(8 * CeilDiv(TotalChunks(l), 8), _ => false);
    MirrorNone(l, bits, have);
    var p := 0;
    while p < TotalPieces(l)
      invariant 0 <= p <= TotalPieces(l)
      invariant |bits| == 8 * CeilDiv(TotalChunks(l), 8)
      invariant Mirrors(l, bits, have, p)
    {
      MirrorStep(l, bits, have, p);
      if have[p] {
        ChunkRangesDisjoint(l, p, p, ChunkBit(l, p, ChunksPerPiece(l, p)) - 1);
        if ChunkBit(l, p, ChunksPerPiece(l, p)) > |bits| {
          return Err("range out of the chunk bitfield");
        }
        bits := FillPiece(l, bits, p, true);
      }
      p := p + 1;
    }
    return Ok(bits);
  }

  /** What is queued at the start: selected and not had. */
  method ComputeQueuedPieces(have: seq<bool>, selected: seq<bool>) returns (r: Result<seq<bool>>)
    ensures r.Ok? <==> |have| == |selected|
    ensures r.Ok? ==> |r.value| == |have| && forall p :: 0 <= p < |have| ==> (r.value[p] <==> selected[p] && !have[p])
  {
    if |have| != |selected| {
      return Err("bitfields differ in length");
    }
    return Ok(seq(|have|, p requires 0 <= p < |have| => !have[p] && selected[p]));
  }

  class ChunkTracker {
    const lengths: Lengths
    var queue: seq<bool>
    var chunks: seq<bool>
    var have: seq<bool>
    var selected: seq<bool>
    var perFileBytes: seq<nat>
    var hns: HaveNeededSelected

    ghost function State(): Bits
      reads this
    {
      Bits(queue, chunks, have, selected)
    }

    /** The cached totals agree with the bitfields. */
    ghost predicate Valid()
      reads this
    {
      && Wf(lengths, State())
      && hns == Totals(lengths, have, selected, TotalPieces(lengths))
    }

    constructor Raw(l: Lengths, queue: seq<bool>, chunks: seq<bool>, have: seq<bool>, selected: seq<bool>, files: nat)
      ensures lengths == l && State() == Bits(queue, chunks, have, selected)
      ensures perFileBytes == seq(files, _ => 0)
    {
      this.lengths := l;
      this.queue, this.chunks, this.have, this.selected := queue, chunks, have, selected;
      this.perFileBytes := seq(files, _ => 0);
      this.hns := HaveNeededSelected(0, 0, 0);
    }

    static method New(l: Lengths, have: seq<bool>, selected: seq<bool>, lens: seq<nat>)
      returns (r: Result<ChunkTracker>)
      requires TotalLength(lens) <= l.total
      ensures r.Ok? <==> |have| == |selected| && |have| >= TotalPieces(l)
      ensures r.Ok? ==> fresh(r.value) && r.value.Valid() && r.value.lengths == l
      ensures r.Ok? ==> r.value.have == have && r.value.selected == selected
      ensures r.Ok? ==> r.value.queue == Needed(have, selected)
      ensures r.Ok? ==> Mirrors(l, r.value.chunks, have, TotalPieces(l))
      ensures r.Ok? ==> r.value.perFileBytes == Accurate(l, lens, have)
    {
      var needed := ComputeQueuedPieces(have, selected);
      if needed.Err? { return Err(needed.error); }
      var chunks := ComputeChunkHaveStatus(l, have);
      if chunks.Err? { return Err(chunks.error); }
      var ct := new ChunkTracker.Raw(l, needed.value, chunks.value, have, selected, |lens|);
      ct.RecalculatePerFileBytes(lens);
      ct.hns := ct.CalcHns();
      return Ok(ct);
    }

    method RecalculatePerFileBytes(lens: seq<nat>)
      requires Wf(lengths, State()) && TotalLength(lens) <= lengths.total && |perFileBytes| == |lens|
      modifies this`perFileBytes
      ensures perFileBytes == Accurate(lengths, lens, have)
    {
      var i := 0;
      while i < |lens|
        invariant 0 <= i <= |lens| == |perFileBytes|
        invariant forall j :: 0 <= j < i ==> perFileBytes[j] == Accurate(lengths, lens, have)[j]
      {
        RangeInTorrent(lengths, lens, i);
        var p, sum := RangeStart(lengths, lens, i), 0;
        HadOutsideRange(lengths, lens, have, i, 0, Min(p, TotalPieces(lengths)));
        while p < RangeEnd(lengths, lens, i)
          invariant p <= RangeEnd(lengths, lens, i) || sum == 0
          invariant sum == HadInFile(lengths, lens, have, i, Min(p, TotalPieces(lengths)))
        {
          if have[p] {
            sum := sum + SizeInFile(lengths, lens, p, i);
          }
          p := p + 1;
        }
        HadOutsideRange(lengths, lens, have, i, Min(p, TotalPieces(lengths)), TotalPieces(lengths));
        perFileBytes := perFileBytes[i := sum];
        i := i + 1;
      }
    }

    method CalcHns() returns (r: HaveNeededSelected)
      requires Wf(lengths, State())
      ensures r == Totals(lengths, have, selected, TotalPieces(lengths))
    {
      r := HaveNeededSelected(0, 0, 0);
      var p := 0;
      while p < TotalPieces(lengths)
        invariant 0 <= p <= TotalPieces(lengths)
        invariant r == Totals(lengths, have, selected, p)
      {
        var len := PieceLength(lengths, p);
        var isNeeded := selected[p] && !have[p];
        r := HaveNeededSelected(
          r.haveBytes + (if have[p] then len else 0),
          r.neededBytes + (if isNeeded then len else 0),
          r.selectedBytes + (if selected[p] then len else 0));
        p := p + 1;
      }
    }

    method ReserveNeededPiece(p: nat)
      requires Valid() && p < TotalPieces(lengths)
      modifies this`queue
      ensures Valid() && queue == old(queue)[p := false]
    {
      queue := queue[p := false];
    }

    method MarkPieceBrokenIfNotHave(p: nat)
      requires Wf(lengths, State()) && p < TotalPieces(lengths)
      modifies this`queue, this`chunks
      ensures State() == MarkBroken(lengths, old(State()), p) && (old(Valid()) ==> Valid())
    {
      if have[p] {
        return;
      }
      queue := queue[p := true];
      chunks := FillPiece(lengths, chunks, p, false);
    }

    /** The cached totals move by exactly this piece; the subtraction cannot underflow. */
    method MarkPieceDownloaded(p: nat)
      requires Valid() && p < TotalPieces(lengths)
      modifies this`have, this`hns
      ensures Valid() && have == old(have)[p := true]
    {
      if !have[p] {
        TotalsOnHave(lengths, have, selected, p);
        have := have[p := true];
        var len := PieceLength(lengths, p);
        hns := hns.(haveBytes := hns.haveBytes + len);
        if selected[p] {
          hns := hns.(neededBytes := hns.neededBytes - len);
        }
      }
    }

    /** Marks one received block; `None` when the block is no chunk of the torrent. */
    method MarkChunkDownloaded(index: nat, begin: nat, len: nat) returns (r: Option<ChunkMarkingResult>)
      requires Valid()
      modifies this`chunks
      ensures Valid()
      ensures r.Some? <==> IsBlock(lengths, index, begin, len)
      ensures r.Some? ==> (r.value == PreviouslyCompleted <==> AllBytes(lengths, old(chunks), index))
      ensures r.Some? ==> (r.value == Completed <==> !AllBytes(lengths, old(chunks), index) && AllBytes(lengths, chunks, index))
      ensures ReceivedChunk(lengths, index, begin, len).None? ==> r == None && chunks == old(chunks)
      ensures ReceivedChunk(lengths, index, begin, len).Some? ==>
                r.Some? && (chunks, r.value) == Mark(lengths, old(chunks), index, ReceivedChunk(lengths, index, begin, len).value)
    {
      var chunk := ReceivedChunk(lengths, index, begin, len);
      BlockIsChunk(lengths, index, begin, len);
      if chunk.None? {
        return None;
      }
      FullIsBytes(lengths, chunks, index);
      if PieceFull(lengths, chunks, index) {
        return Some(PreviouslyCompleted);
      }
      var k := ChunkBit(lengths, index, chunk.value);
      ChunkRangesDisjoint(lengths, index, index, k);
      chunks := chunks[k := true];
      FullIsBytes(lengths, chunks, index);
      if PieceFull(lengths, chunks, index) {
        return Some(Completed);
      }
      return Some(NotCompleted);
    }

    /** Adds the bytes of piece `p` in file `i`; returns what the file still lacks. */
    method UpdateFileHaveOnPieceCompleted(p: nat, i: nat, lens: seq<nat>) returns (remaining: nat)
      requires i < |perFileBytes| == |lens|
      modifies this`perFileBytes
      ensures perFileBytes == old(perFileBytes)[i := old(perFileBytes)[i] + SizeInFile(lengths, lens, p, i)]
      ensures remaining == Max(0, lens[i] as int - perFileBytes[i])
    {
      perFileBytes := perFileBytes[i := perFileBytes[i] + SizeInFile(lengths, lens, p, i)];
      remaining := Max(0, lens[i] as int - perFileBytes[i]);
    }

    /** Walks files and pieces with two cursors. It fails iff the files are longer than the
        torrent; otherwise every piece the files cover to its end is reselected, and when the
        files make up the torrent the cached totals are those of the new bitfields. */
    method UpdateOnlyFiles(lens: seq<nat>, only: set<nat>) returns (r: Result<HaveNeededSelected>)
      requires Valid()
      modifies this`queue, this`chunks, this`selected, this`hns
      ensures r.Err? <==> TotalLength(lens) > lengths.total
      ensures State() == Reselect(lengths, lens, only, old(State()), PiecesEnded(lengths, TotalLength(lens)))
      ensures r.Ok? ==> r.value == hns == Totals(lengths, have, selected, PiecesEnded(lengths, TotalLength(lens)))
      ensures r.Err? ==> hns == old(hns)
      ensures TotalLength(lens) == lengths.total ==> Valid()
    {
      var ok, acc := WalkFiles(lens, only);
      if !ok {
        return Err("shift is zero");
      }
      hns := acc;
      return Ok(acc);
    }

    /** The walk over all files; it stops in the file with which the pieces run out. */
    method WalkFiles(lens: seq<nat>, only: set<nat>) returns (ok: bool, acc: HaveNeededSelected)
      requires Wf(lengths, State())
      modifies this`queue, this`chunks, this`selected
      ensures ok <==> TotalLength(lens) <= lengths.total
      ensures State() == Reselect(lengths, lens, only, old(State()), PiecesEnded(lengths, TotalLength(lens)))
      ensures ok ==> acc == Totals(lengths, have, selected, PiecesEnded(lengths, TotalLength(lens)))
    {
      var c := Cursor(0, PieceLength(lengths, 0), false);
      acc := HaveNeededSelected(0, 0, 0);
      ghost var b0 := State();
      WalkBegins(lengths, lens, only);
      var idx := 0;
      while idx < |lens|
        invariant 0 <= idx <= |lens|
        invariant Walked(lens, only, b0, Offset(lens, idx), c, acc)
      {
        ok, c, acc := WalkFile(lens, only, idx, c, acc, b0);
        if !ok {
          OffsetMonotone(lens, idx + 1, |lens|);
          return;
        }
        idx := idx + 1;
      }
      ok := true;
    }

    ghost predicate Walked(lens: seq<nat>, only: set<nat>, b0: Bits, pos: nat, c: Cursor, acc: HaveNeededSelected)
      reads this
    {
      WalkState(lengths, lens, only, b0, pos, c, State(), acc)
    }

    /** Walks one file; stops when the pieces run out before the file does. */
    method WalkFile(lens: seq<nat>, only: set<nat>, idx: nat, c0: Cursor, acc0: HaveNeededSelected, ghost b0: Bits)
      returns (ok: bool, c: Cursor, acc: HaveNeededSelected)
      requires idx < |lens| && Walked(lens, only, b0, Offset(lens, idx), c0, acc0)
      modifies this`queue, this`chunks, this`selected
      ensures ok <==> Offset(lens, idx + 1) <= lengths.total
      ensures Walked(lens, only, b0, if ok then Offset(lens, idx + 1) else lengths.total, c, acc)
    {
      c, acc := c0, acc0;
      ghost var pos: nat := Offset(lens, idx);
      var remaining: nat := lens[idx];
      while remaining > 0
        invariant pos + remaining == Offset(lens, idx + 1) && Offset(lens, idx) <= pos
        invariant Walked(lens, only, b0, pos, c, acc)
      {
        var shift;
        shift, c, acc := WalkOn(lens, only, idx, c, acc, remaining, pos, b0);
        if shift == 0 {
          return false, c, acc;
        }
        remaining := remaining - shift;
        pos := pos + shift;
      }
      return true, c, acc;
    }

    /** Moves on to the end of the piece or of the file, whichever comes first; not at all when the
        pieces have run out. */
    method WalkOn(lens: seq<nat>, only: set<nat>, idx: nat, c0: Cursor, acc0: HaveNeededSelected, remaining: nat,
                  ghost pos: nat, ghost b0: Bits)
      returns (shift: nat, c: Cursor, acc: HaveNeededSelected)
      requires idx < |lens| && 0 < remaining && Offset(lens, idx) <= pos && pos + remaining == Offset(lens, idx + 1)
      requires Walked(lens, only, b0, pos, c0, acc0)
      modifies this`queue, this`chunks, this`selected
      ensures shift <= remaining && (shift == 0 <==> pos == lengths.total)
      ensures Walked(lens, only, b0, pos + shift, c, acc)
    {
      WalkRoom(lengths, lens, only, pos, c0);
      shift := Min(c0.remaining, remaining);
      c, acc := c0, acc0;
      if shift > 0 {
        c, acc := WalkBytes(lens, only, idx, c, acc, shift, pos, b0);
      }
    }

    /** Moves `shift` bytes on inside one file and one piece, reselecting the piece if it ends. */
    method WalkBytes(lens: seq<nat>, only: set<nat>, idx: nat, c0: Cursor, acc0: HaveNeededSelected, shift: nat,
                     ghost pos: nat, ghost b0: Bits)
      returns (c: Cursor, acc: HaveNeededSelected)
      requires Walked(lens, only, b0, pos, c0, acc0) && 0 < shift <= c0.remaining
      requires idx < |lens| && Offset(lens, idx) <= pos && pos + shift <= Offset(lens, idx + 1)
      modifies this`queue, this`chunks, this`selected
      ensures Walked(lens, only, b0, pos + shift, c, acc)
    {
      c, acc := Cursor(c0.piece, c0.remaining - shift, c0.selected || idx in only), acc0;
      if c.remaining == 0 {
        PieceWalked(lengths, lens, only, pos, c0, idx);
        acc := WalkPiece(lens, only, c, acc, pos + shift, b0);
        c := NextPiece(lengths, c);
      } else {
        WalkInside(lengths, lens, only, pos, c0, idx, shift);
      }
    }

    /** The walk stands at the end of the current piece. */
    method WalkPiece(ghost lens: seq<nat>, ghost only: set<nat>, c: Cursor, acc0: HaveNeededSelected, ghost pos: nat, ghost b0: Bits)
      returns (acc: HaveNeededSelected)
      requires Wf(lengths, b0) && c.piece < TotalPieces(lengths)
      requires State() == Reselect(lengths, lens, only, b0, c.piece) && acc0 == Totals(lengths, have, selected, c.piece)
      requires c.selected <==> PieceChosen(lengths, lens, only, c.piece)
      requires PiecesEnded(lengths, pos) == c.piece + 1 && Walk(lengths, lens, only, pos, NextPiece(lengths, c))
      modifies this`queue, this`chunks, this`selected
      ensures Walked(lens, only, b0, pos, NextPiece(lengths, c), acc)
    {
      ghost var b := State();
      acc := EndPiece(c.piece, c.selected, acc0);
      PieceReselected(lengths, lens, only, b0, c.piece, c.selected, b, pos, NextPiece(lengths, c), State(), acc);
    }

    /** The walk reached the end of piece `cur`: reselect it and extend the totals by it. */
    method EndPiece(cur: nat, curSelected: bool, acc: HaveNeededSelected) returns (r: HaveNeededSelected)
      requires Wf(lengths, State()) && cur < TotalPieces(lengths) && acc == Totals(lengths, have, selected, cur)
      modifies this`queue, this`chunks, this`selected
      ensures State() == SelectPiece(lengths, old(State()), cur, curSelected)
      ensures r == Totals(lengths, have, selected, cur + 1)
    {
      TotalsOnSelect(lengths, State(), cur, curSelected);
      var len := PieceLength(lengths, cur);
      var curHave := have[cur];
      r := acc;
      if curHave { r := r.(haveBytes := r.haveBytes + len); }
      if curSelected { r := r.(selectedBytes := r.selectedBytes + len); }
      if curSelected && !curHave { r := r.(neededBytes := r.neededBytes + len); }
      selected := selected[cur := curSelected];
      if curSelected && !curHave {
        MarkPieceBrokenIfNotHave(cur);
      } else if !curSelected && !curHave {
        queue := queue[cur := false];
      }
    }

    /** All pieces of the file's range are had. */
    method IsFileFinished(lens: seq<nat>, i: nat) returns (r: bool)
      requires i < |lens|
      ensures r <==> RangeEnd(lengths, lens, i) > |have| || forall p :: 0 <= p < |have| && InRange(lengths, lens, i, p) ==> have[p]
    {
      var lo, hi := RangeStart(lengths, lens, i), RangeEnd(lengths, lens, i);
      if hi > |have| || lo > hi {
        return true;
      }
      r := forall p :: lo <= p < hi ==> have[p];
    }
  }

  /** Pieces that end within the first `bytes` bytes. */
  function PiecesEnded(l: Lengths, bytes: nat): (n: nat)
    ensures n <= TotalPieces(l)
  {
    if bytes >= l.total then TotalPieces(l)
    else
      PieceOfByte(l, bytes, PieceOf(l, bytes));
      PieceOf(l, bytes)
  }

  /** They are the pieces whose last byte is among them. */
  lemma PiecesEndedIff(l: Lengths, bytes: nat, p: nat)
    ensures p < PiecesEnded(l, bytes) <==> p < TotalPieces(l) && PieceEnd(l, p) <= bytes
  {
    if p < TotalPieces(l) && bytes < l.total {
      assert PieceLength(l, p) > 0;
      DivBlock(bytes, l.pieceLen, PieceOf(l, bytes));
      PieceOfByte(l, bytes, PieceOf(l, bytes));
      if p < PieceOf(l, bytes) { MulMonotone(p + 1, PieceOf(l, bytes), l.pieceLen); }
      if p > PieceOf(l, bytes) { MulMonotone(PieceOf(l, bytes) + 1, p, l.pieceLen); }
    }
  }

  /** The piece the walk is in, how much of it is left, and whether its bytes so far touch a
      chosen file. */
  datatype Cursor = Cursor(piece: nat, remaining: nat, selected: bool)

  /** On to the next piece; after the last one the cursor stays. */
  function NextPiece(l: Lengths, c: Cursor): Cursor {
    if c.piece + 1 < TotalPieces(l) then Cursor(c.piece + 1, PieceLength(l, c.piece + 1), false) else c
  }

  /** Where the cursor stands after `pos` bytes. */
  ghost predicate Walk(l: Lengths, lens: seq<nat>, only: set<nat>, pos: nat, c: Cursor) {
    && pos <= l.total && c.piece < TotalPieces(l)
    && (pos < l.total ==>
          && PieceStart(l, c.piece) <= pos && pos + c.remaining == PieceEnd(l, c.piece) && c.remaining > 0
          && PiecesEnded(l, pos) == c.piece
          && (c.selected <==> Chosen(lens, only, PieceStart(l, c.piece), pos)))
    && (pos == l.total ==> c.remaining == 0)
  }

  /** After `pos` bytes of the walk from `b0`: the pieces that ended are reselected, and `acc`
      holds their totals. */
  ghost predicate WalkState(l: Lengths, lens: seq<nat>, only: set<nat>, b0: Bits, pos: nat, c: Cursor, b: Bits, acc: HaveNeededSelected) {
    && Wf(l, b0) && Walk(l, lens, only, pos, c)
    && b == Reselect(l, lens, only, b0, PiecesEnded(l, pos))
    && acc == Totals(l, b.have, b.selected, PiecesEnded(l, pos))
  }

  lemma WalkBegins(l: Lengths, lens: seq<nat>, only: set<nat>)
    ensures Walk(l, lens, only, 0, Cursor(0, PieceLength(l, 0), false)) && PiecesEnded(l, 0) == 0
  {
    PieceOfByte(l, 0, 0);
  }

  /** There is room in the current piece until the torrent ends. */
  lemma WalkRoom(l: Lengths, lens: seq<nat>, only: set<nat>, pos: nat, c: Cursor)
    requires Walk(l, lens, only, pos, c)
    ensures pos <= l.total && (c.remaining == 0 <==> pos == l.total)
  {
  }

  /** Moving on inside the current piece. */
  lemma WalkInside(l: Lengths, lens: seq<nat>, only: set<nat>, pos: nat, c: Cursor, idx: nat, shift: nat)
    requires Walk(l, lens, only, pos, c) && 0 < shift < c.remaining
    requires idx < |lens| && Offset(lens, idx) <= pos && pos + shift <= Offset(lens, idx + 1)
    ensures Walk(l, lens, only, pos + shift, Cursor(c.piece, c.remaining - shift, c.selected || idx in only))
    ensures PiecesEnded(l, pos + shift) == PiecesEnded(l, pos)
  {
    ChosenSplit(lens, only, PieceStart(l, c.piece), pos, pos + shift);
    ChosenInFile(lens, only, idx, pos, pos + shift);
    PieceOfByte(l, pos + shift, c.piece);
  }

  /** At the end of the current piece the cursor knows whether the piece is chosen. */
  lemma ChosenToEnd(l: Lengths, lens: seq<nat>, only: set<nat>, pos: nat, c: Cursor, idx: nat)
    requires Walk(l, lens, only, pos, c) && 0 < c.remaining
    requires idx < |lens| && Offset(lens, idx) <= pos && pos + c.remaining <= Offset(lens, idx + 1)
    ensures c.selected || idx in only <==> PieceChosen(l, lens, only, c.piece)
  {
    ChosenSplit(lens, only, PieceStart(l, c.piece), pos, pos + c.remaining);
    ChosenInFile(lens, only, idx, pos, pos + c.remaining);
  }

  /** Moving to the end of the current piece. */
  lemma WalkToEnd(l: Lengths, lens: seq<nat>, only: set<nat>, pos: nat, c: Cursor, sel: bool)
    requires Walk(l, lens, only, pos, c) && 0 < c.remaining
    ensures PiecesEnded(l, pos) == c.piece && PiecesEnded(l, pos + c.remaining) == c.piece + 1
    ensures Walk(l, lens, only, pos + c.remaining, NextPiece(l, Cursor(c.piece, 0, sel)))
  {
    PiecesAbut(l, c.piece);
    if pos + c.remaining < l.total {
      assert PieceLength(l, c.piece + 1) > 0;
      PieceOfByte(l, pos + c.remaining, c.piece + 1);
    }
  }

  lemma ReselectNext(l: Lengths, lens: seq<nat>, only: set<nat>, b: Bits, p: nat, sel: bool)
    requires Wf(l, b) && p < TotalPieces(l) && (sel <==> PieceChosen(l, lens, only, p))
    ensures Reselect(l, lens, only, b, p + 1) == SelectPiece(l, Reselect(l, lens, only, b, p), p, sel)
  {
  }

  /** What the cursor knows at the end of the current piece, and where it stands then. */
  lemma PieceWalked(l: Lengths, lens: seq<nat>, only: set<nat>, pos: nat, c: Cursor, idx: nat)
    requires Walk(l, lens, only, pos, c) && 0 < c.remaining
    requires idx < |lens| && Offset(lens, idx) <= pos && pos + c.remaining <= Offset(lens, idx + 1)
    ensures var sel := c.selected || idx in only;
            && (sel <==> PieceChosen(l, lens, only, c.piece))
            && PiecesEnded(l, pos) == c.piece && PiecesEnded(l, pos + c.remaining) == c.piece + 1
            && Walk(l, lens, only, pos + c.remaining, NextPiece(l, Cursor(c.piece, 0, sel)))
  {
    ChosenToEnd(l, lens, only, pos, c, idx);
    WalkToEnd(l, lens, only, pos, c, c.selected || idx in only);
  }

  /** The state of the walk once the piece that ended is reselected. */
  lemma PieceReselected(l: Lengths, lens: seq<nat>, only: set<nat>, b0: Bits, p: nat, sel: bool, b: Bits,
                        pos: nat, c: Cursor, b': Bits, acc: HaveNeededSelected)
    requires Wf(l, b0) && p < TotalPieces(l) && b == Reselect(l, lens, only, b0, p) && (sel <==> PieceChosen(l, lens, only, p))
    requires b' == SelectPiece(l, b, p, sel) && acc == Totals(l, b'.have, b'.selected, p + 1)
    requires PiecesEnded(l, pos) == p + 1 && Walk(l, lens, only, pos, c)
    ensures WalkState(l, lens, only, b0, pos, c, b', acc)
  {
    ReselectNext(l, lens, only, b0, p, sel);
  }

  /** Reselecting the next piece extends the totals by that piece. */
  lemma TotalsOnSelect(l: Lengths, b: Bits, p: nat, chosen: bool)
    requires Wf(l, b) && p < TotalPieces(l)
    ensures var t := Totals(l, b.have, b.selected, p);
            var len := PieceLength(l, p);
            Totals(l, b.have, SelectPiece(l, b, p, chosen).selected, p + 1)
            == HaveNeededSelected(
                 t.haveBytes + (if b.have[p] then len else 0),
                 t.neededBytes + (if chosen && !b.have[p] then len else 0),
                 t.selectedBytes + (if chosen then len else 0))
  {
    var sel := b.selected[p := chosen];
    BytesAgree(l, sel, b.selected, p);
    BytesAgree(l, Needed(b.have, sel), Needed(b.have, b.selected), p);
  }
}
