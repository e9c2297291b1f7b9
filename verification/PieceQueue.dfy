/** The order in which queued pieces are offered to peers. */
module PieceQueue {
  import opened Lengths
  import opened FileLayout
  import opened FileCounters

  const WORD: nat := 0x1_0000_0000_0000_0000

  function Range(lo: nat, n: nat): (r: seq<nat>) { seq(n, k requires 0 <= k < n => lo + k) }

  function Take(s: seq<nat>, n: nat): (r: seq<nat>) { if n <= |s| then s[..n] else s }

  /** First piece, last piece, then the rest in order, cut to the length of the range. The
      subtractions wrap, as they do for ranges shorter than two. */
  function PiecePriorities(lo: nat, hi: nat): (r: seq<nat>)
    requires lo <= hi < WORD
  {
    var n := hi - lo;
    var first := [lo];
    var last := [(lo + (n + WORD - 1) % WORD) % WORD];
    var mid := Take(Range(lo + 1, if n == 0 then 0 else n - 1), (n + WORD - 2) % WORD);
    Take(first + last + mid, n)
  }

  /** The offered order is a permutation of the range that starts with its two ends. */
  lemma PrioritiesPermuteRange(lo: nat, hi: nat)
    requires lo <= hi < WORD
    ensures var r := PiecePriorities(lo, hi);
            && |r| == hi - lo
            && (forall p: nat :: p in r <==> lo <= p < hi)
            && (forall j, k :: 0 <= j < k < |r| ==> r[j] != r[k])
            && (hi - lo >= 1 ==> r[0] == lo)
            && (hi - lo >= 2 ==> r[1] == hi - 1)
            && (forall k :: 2 <= k < |r| ==> r[k] == lo + k - 1)
  {
    var n, r := hi - lo, PiecePriorities(lo, hi);
    if n >= 2 {
      assert (n + WORD - 1) % WORD == n - 1 && (n + WORD - 2) % WORD == n - 2;
      var mid := Range(lo + 1, n - 1)[..n - 2];
      assert r == [lo] + [hi - 1] + mid;
      forall p: nat | lo <= p < hi ensures p in r {
        if p == lo { assert r[0] == p; }
        else if p == hi - 1 { assert r[1] == p; }
        else { assert r[p - lo + 1] == p; }
      }
    } else if n == 1 {
      assert r == [lo];
    }
  }

  /** Where a piece comes in the order of its range: first, last, then rising. */
  function Rank(lo: nat, hi: nat, p: nat): int {
    if p == lo then 0 else if p == hi - 1 then 1 else p - lo + 1
  }

  lemma RankIsIndex(lo: nat, hi: nat, k: nat)
    requires lo <= hi < WORD && k < hi - lo
    ensures var r := PiecePriorities(lo, hi); k < |r| && Rank(lo, hi, r[k]) == k
  {
    PrioritiesPermuteRange(lo, hi);
  }

  function Filter(s: seq<nat>, f: seq<bool>): seq<nat> {
    if s == [] then []
    else (if s[0] < |f| && f[s[0]] then [s[0]] else []) + Filter(s[1..], f)
  }

  lemma {:induction false} FilterKeeps(s: seq<nat>, f: seq<bool>, p: nat)
    ensures p in Filter(s, f) <==> p in s && p < |f| && f[p]
  {
    if s != [] {
      FilterKeeps(s[1..], f, p);
      assert s == [s[0]] + s[1..];
    }
  }

  /** The queued pieces of the listed files, file by file, skipping every file whose counter has
      reached its length. */
  function IterQueued(l: Lengths, lens: seq<nat>, queue: seq<bool>, perFile: seq<nat>, order: seq<nat>): seq<nat>
    requires |perFile| == |lens| && TotalLength(lens) <= l.total && TotalPieces(l) < WORD
  {
    if order == [] then []
    else
      var i := order[0];
      (if i < |lens| && perFile[i] != lens[i] then
         Filter(PiecePriorities(RangeStart(l, lens, i), RangeHi(l, lens, i)), queue)
       else [])
      + IterQueued(l, lens, queue, perFile, order[1..])
  }

  function RangeHi(l: Lengths, lens: seq<nat>, i: nat): (hi: nat)
    requires i < |lens| && TotalLength(lens) <= l.total
    ensures RangeStart(l, lens, i) <= hi <= TotalPieces(l)
  {
    RangeInTorrent(l, lens, i);
    RangeOrdered(l, lens, i);
    RangeEnd(l, lens, i)
  }

  lemma RangeOrdered(l: Lengths, lens: seq<nat>, i: nat)
    requires i < |lens|
    ensures RangeStart(l, lens, i) <= RangeEnd(l, lens, i)
  {
    var lo, hi := RangeStart(l, lens, i), RangeEnd(l, lens, i);
    DivBlock(Offset(lens, i), l.pieceLen, lo);
    if hi < lo { MulMonotone(hi, lo - 1, l.pieceLen); StepProduct(lo - 1, l.pieceLen); }
  }

  /** File `i` is listed, and its counter says it is unfinished. */
  predicate Offers(lens: seq<nat>, perFile: seq<nat>, order: seq<nat>, i: nat)
    requires |perFile| == |lens|
  {
    i in order && i < |lens| && perFile[i] != lens[i]
  }

  lemma {:induction false} IterQueuedMembers(l: Lengths, lens: seq<nat>, queue: seq<bool>, perFile: seq<nat>, order: seq<nat>, p: nat)
    requires |perFile| == |lens| && TotalLength(lens) <= l.total && TotalPieces(l) < WORD
    ensures p in IterQueued(l, lens, queue, perFile, order)
            <==> p < |queue| && queue[p] && exists i: nat :: Offers(lens, perFile, order, i) && InRange(l, lens, i, p)
  {
    if order != [] {
      var i0, rest := order[0], order[1..];
      assert order == [i0] + rest;
      IterQueuedMembers(l, lens, queue, perFile, rest, p);
      if i0 < |lens| && perFile[i0] != lens[i0] {
        var head := PiecePriorities(RangeStart(l, lens, i0), RangeHi(l, lens, i0));
        FilterKeeps(head, queue, p);
        PrioritiesPermuteRange(RangeStart(l, lens, i0), RangeHi(l, lens, i0));
        assert p in Filter(head, queue) <==> p < |queue| && queue[p] && InRange(l, lens, i0, p);
        assert Offers(lens, perFile, order, i0);
      }
      forall i: nat ensures Offers(lens, perFile, order, i)
                            <==> Offers(lens, perFile, rest, i) || (i == i0 && i0 < |lens| && perFile[i0] != lens[i0]) {}
    }
  }

  /** With accurate counters, a piece still missing is offered iff it is queued and lies in a
      listed non-empty file: the counter shortcut never hides a missing piece. */
  lemma MissingPiecesOffered(l: Lengths, lens: seq<nat>, have: seq<bool>, queue: seq<bool>, order: seq<nat>, p: nat)
    requires |have| >= TotalPieces(l) && TotalLength(lens) == l.total && TotalPieces(l) < WORD
    requires p < TotalPieces(l) && !have[p]
    ensures p in IterQueued(l, lens, queue, Accurate(l, lens, have), order)
            <==> p < |queue| && queue[p] && exists i: nat :: i in order && InRange(l, lens, i, p) && lens[i] > 0
  {
    var perFile := Accurate(l, lens, have);
    IterQueuedMembers(l, lens, queue, perFile, order, p);
    forall i: nat | InRange(l, lens, i, p) && lens[i] > 0 ensures perFile[i] != lens[i] {
      CounterFull(l, lens, have, i);
    }
    forall i: nat | i < |lens| && lens[i] == 0 ensures perFile[i] == lens[i] {
      EmptyNeverCounted(l, lens, have, i, TotalPieces(l));
    }
    if i: nat :| i in order && InRange(l, lens, i, p) && lens[i] > 0 {
      assert Offers(lens, perFile, order, i);
    }
  }

  lemma {:induction false} EmptyNeverCounted(l: Lengths, lens: seq<nat>, have: seq<bool>, i: nat, n: nat)
    requires i < |lens| && lens[i] == 0 && n <= |have|
    ensures HadInFile(l, lens, have, i, n) == 0
  {
    if n > 0 { EmptyNeverCounted(l, lens, have, i, n - 1); }
  }

  /** When queue and have are disjoint and counters accurate, exactly the queued pieces of the
      listed non-empty files are offered. */
  lemma OffersExactlyQueued(l: Lengths, lens: seq<nat>, have: seq<bool>, queue: seq<bool>, order: seq<nat>, p: nat)
    requires |have| == |queue| >= TotalPieces(l) && TotalLength(lens) == l.total && TotalPieces(l) < WORD
    requires forall q :: 0 <= q < TotalPieces(l) && queue[q] ==> !have[q]
    ensures p in IterQueued(l, lens, queue, Accurate(l, lens, have), order)
            <==> p < TotalPieces(l) && queue[p] && exists i: nat :: i in order && InRange(l, lens, i, p) && lens[i] > 0
  {
    IterQueuedMembers(l, lens, queue, Accurate(l, lens, have), order, p);
    forall i: nat | InRange(l, lens, i, p) ensures p < TotalPieces(l) { RangeInTorrent(l, lens, i); }
    if p < TotalPieces(l) && !have[p] {
      MissingPiecesOffered(l, lens, have, queue, order, p);
    }
  }

  /** With every file listed, every queued piece still missing is offered. */
  lemma NothingQueuedIsHidden(l: Lengths, lens: seq<nat>, have: seq<bool>, queue: seq<bool>, order: seq<nat>, p: nat)
    requires |have| == |queue| >= TotalPieces(l) && TotalLength(lens) == l.total && TotalPieces(l) < WORD
    requires forall i :: 0 <= i < |lens| ==> i in order
    requires p < TotalPieces(l) && queue[p] && !have[p]
    ensures p in IterQueued(l, lens, queue, Accurate(l, lens, have), order)
  {
    assert PieceLength(l, p) > 0;
    var i := Owner(lens, |lens|, PieceStart(l, p));
    StepProduct(p, l.pieceLen);
    RangeIsOverlap(l, lens, i, p);
    MissingPiecesOffered(l, lens, have, queue, order, p);
  }
}
