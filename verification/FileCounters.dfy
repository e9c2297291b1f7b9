/** Bytes had per file: the sum the tracker recomputes, and what crediting completed
    pieces one at a time makes of it. */
module FileCounters {
  import opened Lengths
  import opened FileLayout
  import opened PieceBits

  /** Bytes of file `i` lying in had pieces below `n`. */
  function HadInFile(l: Lengths, lens: seq<nat>, have: seq<bool>, i: nat, n: nat): nat
    requires i < |lens| && n <= |have|
  {
    if n == 0 then 0
    else HadInFile(l, lens, have, i, n - 1) + (if have[n - 1] then SizeInFile(l, lens, n - 1, i) else 0)
  }

  /** The per-file counters a fresh recalculation would give. */
  ghost function Accurate(l: Lengths, lens: seq<nat>, have: seq<bool>): (r: seq<nat>)
    requires |have| >= TotalPieces(l)
  {
    seq(|lens|, i requires 0 <= i < |lens| => HadInFile(l, lens, have, i, TotalPieces(l)))
  }

  /** Only the pieces of a file's range contribute to its counter. */
  lemma {:induction false} HadOutsideRange(l: Lengths, lens: seq<nat>, have: seq<bool>, i: nat, m: nat, n: nat)
    requires i < |lens| && m <= n <= |have| && TotalLength(lens) <= l.total
    requires forall p :: m <= p < n ==> !InRange(l, lens, i, p)
    ensures HadInFile(l, lens, have, i, n) == HadInFile(l, lens, have, i, m)
    decreases n
  {
    if m < n {
      HadOutsideRange(l, lens, have, i, m, n - 1);
      SizeInFilePositive(l, lens, n - 1, i);
    }
  }

  lemma {:induction false} HadAgree(l: Lengths, lens: seq<nat>, have: seq<bool>, have': seq<bool>, i: nat, n: nat)
    requires i < |lens| && n <= |have| && n <= |have'|
    requires forall p :: 0 <= p < n ==> have[p] == have'[p]
    ensures HadInFile(l, lens, have, i, n) == HadInFile(l, lens, have', i, n)
  {
    if n > 0 { HadAgree(l, lens, have, have', i, n - 1); }
  }

  lemma {:induction false} HadSetOne(l: Lengths, lens: seq<nat>, have: seq<bool>, i: nat, p: nat, n: nat)
    requires i < |lens| && p < n <= |have| && !have[p]
    ensures HadInFile(l, lens, have[p := true], i, n) == HadInFile(l, lens, have, i, n) + SizeInFile(l, lens, p, i)
  {
    if p == n - 1 {
      HadAgree(l, lens, have, have[p := true], i, n - 1);
    } else {
      HadSetOne(l, lens, have, i, p, n - 1);
    }
  }

  /** A file's counter reaches its length exactly when all its pieces are had: the shortcut
      `per_file_bytes[id] != len` agrees with `is_file_finished` on every non-empty file. */
  lemma CounterFull(l: Lengths, lens: seq<nat>, have: seq<bool>, i: nat)
    requires i < |lens| && lens[i] > 0 && |have| >= TotalPieces(l) && TotalLength(lens) == l.total
    ensures HadInFile(l, lens, have, i, TotalPieces(l)) == lens[i]
            <==> forall p: nat :: InRange(l, lens, i, p) && p < |have| ==> have[p]
  {
    var n := TotalPieces(l);
    HadUpTo(l, lens, have, i, n);
    OffsetMonotone(lens, i + 1, |lens|);
    RangeInTorrent(l, lens, i);
    forall p: nat | p < n ensures SizeInFile(l, lens, p, i) > 0 <==> InRange(l, lens, i, p) {
      SizeInFilePositive(l, lens, p, i);
    }
  }

  /** Bytes of file `i` before piece `n`. */
  function Below(l: Lengths, lens: seq<nat>, i: nat, n: nat): nat
    requires i < |lens|
  {
    Max(0, Min(PieceStart(l, n), Offset(lens, i + 1)) - Offset(lens, i))
  }

  lemma BelowStep(l: Lengths, lens: seq<nat>, i: nat, p: nat)
    requires i < |lens| && TotalLength(lens) == l.total
    ensures Below(l, lens, i, p + 1) == Below(l, lens, i, p) + SizeInFile(l, lens, p, i)
  {
    OffsetMonotone(lens, i + 1, |lens|);
    StepProduct(p, l.pieceLen);
  }

  /** Below piece `n` the counter falls short of the file's bytes there iff some piece is missing. */
  lemma {:induction false} HadUpTo(l: Lengths, lens: seq<nat>, have: seq<bool>, i: nat, n: nat)
    requires i < |lens| && n <= |have| && TotalLength(lens) == l.total
    ensures HadInFile(l, lens, have, i, n) <= Below(l, lens, i, n)
    ensures HadInFile(l, lens, have, i, n) == Below(l, lens, i, n)
            <==> forall p: nat :: p < n && SizeInFile(l, lens, p, i) > 0 ==> have[p]
  {
    if n > 0 {
      HadUpTo(l, lens, have, i, n - 1);
      BelowStep(l, lens, i, n - 1);
    }
  }

  // ---- conservation across files ----

  function HadInFirst(l: Lengths, lens: seq<nat>, have: seq<bool>, n: nat, k: nat): nat
    requires n <= |have| && k <= |lens|
  {
    if k == 0 then 0 else HadInFirst(l, lens, have, n, k - 1) + HadInFile(l, lens, have, k - 1, n)
  }

  lemma {:induction false} HadInFirstStep(l: Lengths, lens: seq<nat>, have: seq<bool>, n: nat, k: nat)
    requires 0 < n <= |have| && k <= |lens|
    ensures HadInFirst(l, lens, have, n, k)
         == HadInFirst(l, lens, have, n - 1, k) + (if have[n - 1] then SizeInFirst(l, lens, n - 1, k) else 0)
  {
    if k > 0 { HadInFirstStep(l, lens, have, n, k - 1); }
  }

  /** The per-file counters add up to the bytes had in the torrent. */
  lemma {:induction false} CountersConserved(l: Lengths, lens: seq<nat>, have: seq<bool>, n: nat)
    requires n <= TotalPieces(l) <= |have| && TotalLength(lens) == l.total
    ensures HadInFirst(l, lens, have, n, |lens|) == BytesWhere(l, have, n)
  {
    if n > 0 {
      CountersConserved(l, lens, have, n - 1);
      HadInFirstStep(l, lens, have, n, |lens|);
      FilesSharePiece(l, lens, n - 1, |lens|);
      assert PieceLength(l, n - 1) > 0;
    } else {
      NoneHad(l, lens, have, |lens|);
    }
  }

  lemma {:induction false} NoneHad(l: Lengths, lens: seq<nat>, have: seq<bool>, k: nat)
    requires k <= |lens|
    ensures HadInFirst(l, lens, have, 0, k) == 0
  {
    if k > 0 { NoneHad(l, lens, have, k - 1); }
  }

  // ---- crediting completed pieces ----

  /** The files whose range holds piece `p` are consecutive, so skipping files until the first
      one and stopping at the next miss visits exactly them. */
  lemma FilesOfPieceContiguous(l: Lengths, lens: seq<nat>, p: nat, i: nat, j: nat, k: nat)
    requires i <= j <= k && InRange(l, lens, i, p) && InRange(l, lens, k, p)
    ensures InRange(l, lens, j, p)
  {
    OffsetMonotone(lens, j, k);
    OffsetMonotone(lens, i + 1, j + 1);
    CeilDivMonotone(Offset(lens, i + 1), Offset(lens, j + 1), l.pieceLen);
    DivBlock(Offset(lens, j), l.pieceLen, RangeStart(l, lens, j));
    DivBlock(Offset(lens, k), l.pieceLen, RangeStart(l, lens, k));
    if RangeStart(l, lens, j) > RangeStart(l, lens, k) {
      MulMonotone(RangeStart(l, lens, k) + 1, RangeStart(l, lens, j), l.pieceLen);
    }
  }

  /** Counters after crediting the pieces of `log` in order. */
  ghost function Credit(l: Lengths, lens: seq<nat>, counters: seq<nat>, log: seq<nat>): (r: seq<nat>)
    requires |counters| == |lens|
    ensures |r| == |lens|
  {
    if log == [] then counters
    else Credited(l, lens, Credit(l, lens, counters, log[..|log| - 1]), log[|log| - 1])
  }

  /** Every file's counter grown by the bytes of piece `p` it holds. */
  ghost function Credited(l: Lengths, lens: seq<nat>, counters: seq<nat>, p: nat): (r: seq<nat>)
    requires |counters| == |lens|
  {
    seq(|lens|, i requires 0 <= i < |lens| => counters[i] + SizeInFile(l, lens, p, i))
  }

  function HaveAfter(have: seq<bool>, log: seq<nat>): seq<bool> {
    seq(|have|, p requires 0 <= p < |have| => have[p] || p in log)
  }

  /** No piece is logged twice, or was had before. */
  ghost predicate EachOnce(have: seq<bool>, log: seq<nat>)
    requires forall k :: 0 <= k < |log| ==> log[k] < |have|
  {
    && (forall k :: 0 <= k < |log| ==> !have[log[k]])
    && (forall j, k :: 0 <= j < k < |log| ==> log[j] != log[k])
  }

  function Sum(s: seq<nat>, n: nat): nat
    requires n <= |s|
  {
    if n == 0 then 0 else Sum(s, n - 1) + s[n - 1]
  }

  lemma {:induction false} SumAccurate(l: Lengths, lens: seq<nat>, have: seq<bool>, k: nat)
    requires |have| >= TotalPieces(l) && k <= |lens|
    ensures Sum(Accurate(l, lens, have), k) == HadInFirst(l, lens, have, TotalPieces(l), k)
  {
    if k > 0 { SumAccurate(l, lens, have, k - 1); }
  }

  /** The sum of accurate counters is the cached `have_bytes`. */
  lemma CountersAddUp(l: Lengths, lens: seq<nat>, have: seq<bool>)
    requires |have| >= TotalPieces(l) && TotalLength(lens) == l.total
    ensures Sum(Accurate(l, lens, have), |lens|) == BytesWhere(l, have, TotalPieces(l))
  {
    SumAccurate(l, lens, have, |lens|);
    CountersConserved(l, lens, have, TotalPieces(l));
  }

  lemma {:induction false} SumCredited(l: Lengths, lens: seq<nat>, counters: seq<nat>, p: nat, k: nat)
    requires |counters| == |lens| && k <= |lens|
    ensures Sum(Credited(l, lens, counters, p), k) == Sum(counters, k) + SizeInFirst(l, lens, p, k)
  {
    if k > 0 { SumCredited(l, lens, counters, p, k - 1); }
  }

  /** A credit adds the whole piece to the sum over the files. */
  lemma CreditedTotal(l: Lengths, lens: seq<nat>, counters: seq<nat>, p: nat)
    requires p < TotalPieces(l) && TotalLength(lens) == l.total && |counters| == |lens|
    ensures Sum(Credited(l, lens, counters, p), |lens|) == Sum(counters, |lens|) + PieceLength(l, p)
  {
    SumCredited(l, lens, counters, p, |lens|);
    FilesSharePiece(l, lens, p, |lens|);
    assert PieceLength(l, p) > 0;
  }

  /** Two counters credited alike agree only if they agreed before. */
  lemma CreditedInjective(l: Lengths, lens: seq<nat>, a: seq<nat>, b: seq<nat>, p: nat)
    requires |a| == |b| == |lens| && Credited(l, lens, a, p) == Credited(l, lens, b, p)
    ensures a == b
  {
    forall i | 0 <= i < |lens| ensures a[i] == b[i] {
      assert Credited(l, lens, a, p)[i] == Credited(l, lens, b, p)[i];
    }
  }

  lemma EachOnceLast(have: seq<bool>, log: seq<nat>, p: nat)
    requires p < |have| && forall k :: 0 <= k < |log| ==> log[k] < |have|
    ensures EachOnce(have, log + [p]) <==> EachOnce(have, log) && !have[p] && p !in log
    ensures HaveAfter(have, log + [p]) == HaveAfter(have, log)[p := true]
  {
    var more := log + [p];
    assert more[|log|] == p && forall k :: 0 <= k < |log| ==> more[k] == log[k];
    if EachOnce(have, more) {
      forall k | 0 <= k < |log| ensures !have[log[k]] && log[k] != p {
        assert !have[more[k]] && more[k] != more[|log|];
      }
      forall j, k | 0 <= j < k < |log| ensures log[j] != log[k] {
        assert more[j] != more[k];
      }
    }
  }

  /** Credited counters never fall below a recalculation, in total; and they stay exact, file by
      file, if and only if no piece was credited twice or had already been counted. */
  lemma {:induction false} CreditExact(l: Lengths, lens: seq<nat>, have: seq<bool>, log: seq<nat>)
    requires |have| >= TotalPieces(l) && TotalLength(lens) == l.total
    requires forall k :: 0 <= k < |log| ==> log[k] < TotalPieces(l)
    ensures var credited := Credit(l, lens, Accurate(l, lens, have), log);
            var exact := Accurate(l, lens, HaveAfter(have, log));
            && Sum(credited, |lens|) >= Sum(exact, |lens|)
            && (credited == exact <==> EachOnce(have, log))
            && (Sum(credited, |lens|) == Sum(exact, |lens|) ==> credited == exact)
  {
    if log == [] {
      assert HaveAfter(have, log) == have;
    } else {
      var short, p := log[..|log| - 1], log[|log| - 1];
      assert log == short + [p];
      CreditExact(l, lens, have, short);
      EachOnceLast(have, short, p);
      CreditLast(l, lens, HaveAfter(have, short), Credit(l, lens, Accurate(l, lens, have), short), p);
    }
  }

  /** One more credit, on counters that may already have drifted upwards. */
  lemma CreditLast(l: Lengths, lens: seq<nat>, have: seq<bool>, counters: seq<nat>, p: nat)
    requires p < TotalPieces(l) <= |have| && TotalLength(lens) == l.total && |counters| == |lens|
    requires Sum(counters, |lens|) >= Sum(Accurate(l, lens, have), |lens|)
    requires Sum(counters, |lens|) == Sum(Accurate(l, lens, have), |lens|) ==> counters == Accurate(l, lens, have)
    ensures var credited, exact := Credited(l, lens, counters, p), Accurate(l, lens, have[p := true]);
            && Sum(credited, |lens|) >= Sum(exact, |lens|)
            && (credited == exact <==> counters == Accurate(l, lens, have) && !have[p])
            && (Sum(credited, |lens|) == Sum(exact, |lens|) ==> credited == exact)
  {
    CreditedTotal(l, lens, counters, p);
    var exact := Accurate(l, lens, have);
    if have[p] {
      assert have[p := true] == have;
    } else {
      CreditedTotal(l, lens, exact, p);
      CreditOne(l, lens, have, p);
      if Credited(l, lens, counters, p) == Credited(l, lens, exact, p) {
        CreditedInjective(l, lens, counters, exact, p);
      }
    }
  }

  /** Crediting one new piece turns accurate counters into accurate counters. */
  lemma CreditOne(l: Lengths, lens: seq<nat>, have: seq<bool>, p: nat)
    requires p < TotalPieces(l) <= |have| && !have[p]
    ensures Accurate(l, lens, have[p := true]) == Credited(l, lens, Accurate(l, lens, have), p)
  {
    forall i | 0 <= i < |lens|
      ensures Accurate(l, lens, have[p := true])[i] == Accurate(l, lens, have)[i] + SizeInFile(l, lens, p, i)
    {
      HadSetOne(l, lens, have, i, p, TotalPieces(l));
    }
  }
}
