/** The per-file counters over whole runs, and what they hide: a file whose counter has reached its
    length is passed over when pieces are offered, whether or not its pieces are had. */
module CounterProtocol {
  import opened Lengths
  import opened FileLayout
  import opened PieceBits
  import opened FileCounters
  import opened PieceQueue
  import opened PieceProtocol

  /** Bytes of file `i` in passed pieces below `n` that are still to be credited. */
  ghost function Pending(l: Lengths, lens: seq<nat>, completing: multiset<nat>, i: nat, n: nat): nat
    requires i < |lens|
  {
    if n == 0 then 0
    else Pending(l, lens, completing, i, n - 1) + completing[n - 1] * SizeInFile(l, lens, n - 1, i)
  }

  lemma {:induction false} PendingAdd(l: Lengths, lens: seq<nat>, m: multiset<nat>, i: nat, p: nat, n: nat)
    requires i < |lens|
    ensures Pending(l, lens, m + multiset{p}, i, n)
            == Pending(l, lens, m, i, n) + (if p < n then SizeInFile(l, lens, p, i) else 0)
  {
    if n > 0 {
      PendingAdd(l, lens, m, i, p, n - 1);
      if p == n - 1 { StepProduct(m[p], SizeInFile(l, lens, p, i)); }
    }
  }

  lemma PendingRemove(l: Lengths, lens: seq<nat>, m: multiset<nat>, i: nat, p: nat, n: nat)
    requires i < |lens| && p in m && p < n
    ensures Pending(l, lens, m, i, n) == Pending(l, lens, m - multiset{p}, i, n) + SizeInFile(l, lens, p, i)
  {
    PendingAdd(l, lens, m - multiset{p}, i, p, n);
    assert m - multiset{p} + multiset{p} == m;
  }

  lemma {:induction false} NonePending(l: Lengths, lens: seq<nat>, i: nat, n: nat)
    requires i < |lens|
    ensures Pending(l, lens, multiset{}, i, n) == 0
  {
    if n > 0 { NonePending(l, lens, i, n - 1); }
  }

  /** What a file's counter comes to once all pending credits are given. */
  ghost function Owed(l: Lengths, lens: seq<nat>, s: State, i: nat): nat
    requires i < |lens| == |s.counters|
  {
    s.counters[i] + Pending(l, lens, s.completing, i, TotalPieces(l))
  }

  ghost function Had(l: Lengths, lens: seq<nat>, s: State, i: nat): nat
    requires i < |lens| && Wf(l, s.bits)
  {
    HadInFile(l, lens, s.bits.have, i, TotalPieces(l))
  }

  /** With the pending credits, every counter is the bytes had. */
  ghost predicate Exact(l: Lengths, lens: seq<nat>, s: State)
    requires Wellformed(l, lens, s)
  {
    forall i: nat :: i < |lens| ==> Owed(l, lens, s, i) == Had(l, lens, s, i)
  }

  /** With the pending credits, no counter exceeds the bytes had. */
  ghost predicate NotOver(l: Lengths, lens: seq<nat>, s: State)
    requires Wellformed(l, lens, s)
  {
    forall i: nat :: i < |lens| ==> Owed(l, lens, s, i) <= Had(l, lens, s, i)
  }

  /** A piece already had passes a hash check again. */
  ghost predicate Repass(l: Lengths, s: State, step: Step)
    requires Wf(l, s.bits)
  {
    step.HashPass? && step.piece < TotalPieces(l) && s.bits.have[step.piece]
  }

  /** A pause comes between a hash check and its credit. */
  predicate DropsCredit(s: State, step: Step) { step.Pause? && s.completing != multiset{} }

  lemma HaveKept(l: Lengths, lens: seq<nat>, s: State, step: Step, s': State)
    requires Wellformed(l, lens, s) && Next(l, lens, s, step, s') && !step.HashPass?
    ensures s'.bits.have == s.bits.have
  {
  }

  lemma CreditsKept(l: Lengths, lens: seq<nat>, s: State, step: Step, s': State)
    requires Wellformed(l, lens, s) && Next(l, lens, s, step, s')
    requires !step.HashPass? && !step.Complete? && !step.Pause?
    ensures s'.completing == s.completing && s'.counters == s.counters
  {
  }

  /** What every step does to one file's account. */
  lemma AccountStep(l: Lengths, lens: seq<nat>, s: State, step: Step, s': State, i: nat)
    requires Wellformed(l, lens, s) && Wellformed(l, lens, s') && Next(l, lens, s, step, s') && i < |lens|
    ensures Owed(l, lens, s', i)
            == if step.HashPass? then Owed(l, lens, s, i) + SizeInFile(l, lens, step.piece, i)
               else if step.Pause? then s.counters[i]
               else Owed(l, lens, s, i)
    ensures Had(l, lens, s', i)
            == Had(l, lens, s, i) + (if step.HashPass? && !Repass(l, s, step) then SizeInFile(l, lens, step.piece, i) else 0)
  {
    if step.HashPass? {
      PassAccount(l, lens, s, s', step.piece, i);
    } else {
      HaveKept(l, lens, s, step, s');
      if step.Complete? {
        CreditAccount(l, lens, s, s', step.piece, i);
      } else if step.Pause? {
        NonePending(l, lens, i, TotalPieces(l));
      } else {
        CreditsKept(l, lens, s, step, s');
      }
    }
  }

  lemma CreditAccount(l: Lengths, lens: seq<nat>, s: State, s': State, p: nat, i: nat)
    requires i < |lens| == |s.counters| && p < TotalPieces(l) && p in s.completing
    requires s'.counters == Credited(l, lens, s.counters, p) && s'.completing == s.completing - multiset{p}
    ensures Owed(l, lens, s', i) == Owed(l, lens, s, i)
  {
    PendingRemove(l, lens, s.completing, i, p, TotalPieces(l));
  }

  lemma PassAccount(l: Lengths, lens: seq<nat>, s: State, s': State, p: nat, i: nat)
    requires Wf(l, s.bits) && i < |lens| == |s.counters| && p < TotalPieces(l)
    requires s'.bits.have == s.bits.have[p := true] && Wf(l, s'.bits)
    requires s'.counters == s.counters && s'.completing == s.completing + multiset{p}
    ensures Owed(l, lens, s', i) == Owed(l, lens, s, i) + SizeInFile(l, lens, p, i)
    ensures Had(l, lens, s', i) == Had(l, lens, s, i) + (if s.bits.have[p] then 0 else SizeInFile(l, lens, p, i))
  {
    PendingAdd(l, lens, s.completing, i, p, TotalPieces(l));
    if s.bits.have[p] {
      assert s'.bits.have == s.bits.have;
    } else {
      HadSetOne(l, lens, s.bits.have, i, p, TotalPieces(l));
    }
  }

  /** Every piece has a file with some of its bytes. */
  lemma SomeHolder(l: Lengths, lens: seq<nat>, p: nat) returns (i: nat)
    requires TotalLength(lens) == l.total && p < TotalPieces(l)
    ensures i < |lens| && lens[i] > 0 && InRange(l, lens, i, p) && SizeInFile(l, lens, p, i) > 0
  {
    assert PieceLength(l, p) > 0;
    i := Owner(lens, |lens|, PieceStart(l, p));
    StepProduct(p, l.pieceLen);
    RangeIsOverlap(l, lens, i, p);
    SizeInFilePositive(l, lens, p, i);
  }

  /** A step keeps the counters exact if and only if it is neither a second pass of a had piece nor
      a pause between a hash check and its credit. */
  lemma ExactStep(l: Lengths, lens: seq<nat>, s: State, step: Step, s': State)
    requires Wellformed(l, lens, s) && Next(l, lens, s, step, s') && TotalLength(lens) == l.total && Exact(l, lens, s)
    ensures Wellformed(l, lens, s')
    ensures Exact(l, lens, s') <==> !Repass(l, s, step) && !DropsCredit(s, step)
  {
    WellformedStep(l, lens, s, step, s');
    if Repass(l, s, step) {
      RepassOvercounts(l, lens, s, step, s');
    } else if DropsCredit(s, step) {
      DropUndercounts(l, lens, s, step, s');
    } else {
      OtherStepExact(l, lens, s, step, s');
    }
  }

  lemma OtherStepExact(l: Lengths, lens: seq<nat>, s: State, step: Step, s': State)
    requires Wellformed(l, lens, s) && Wellformed(l, lens, s') && Next(l, lens, s, step, s')
    requires Exact(l, lens, s) && !Repass(l, s, step) && !DropsCredit(s, step)
    ensures Exact(l, lens, s')
  {
    forall i: nat | i < |lens| ensures Owed(l, lens, s', i) == Had(l, lens, s', i) {
      AccountStep(l, lens, s, step, s', i);
      if step.Pause? { NonePending(l, lens, i, TotalPieces(l)); }
    }
  }

  lemma RepassOvercounts(l: Lengths, lens: seq<nat>, s: State, step: Step, s': State)
    requires Wellformed(l, lens, s) && Wellformed(l, lens, s') && Next(l, lens, s, step, s') && Repass(l, s, step)
    requires TotalLength(lens) == l.total && Exact(l, lens, s)
    ensures !NotOver(l, lens, s') && !Exact(l, lens, s')
  {
    var i := SomeHolder(l, lens, step.piece);
    AccountStep(l, lens, s, step, s', i);
    assert Owed(l, lens, s', i) > Had(l, lens, s', i);
  }

  lemma DropUndercounts(l: Lengths, lens: seq<nat>, s: State, step: Step, s': State)
    requires Wellformed(l, lens, s) && Wellformed(l, lens, s') && Next(l, lens, s, step, s') && DropsCredit(s, step)
    requires TotalLength(lens) == l.total && Exact(l, lens, s)
    ensures !Exact(l, lens, s')
  {
    var p :| p in s.completing;
    var i := SomeHolder(l, lens, p);
    PendingRemove(l, lens, s.completing, i, p, TotalPieces(l));
    AccountStep(l, lens, s, step, s', i);
    assert Owed(l, lens, s', i) < Had(l, lens, s', i);
  }

  /** Only a second pass of a had piece can make a counter exceed the bytes had. */
  lemma NotOverStep(l: Lengths, lens: seq<nat>, s: State, step: Step, s': State)
    requires Wellformed(l, lens, s) && Next(l, lens, s, step, s') && NotOver(l, lens, s) && !Repass(l, s, step)
    ensures Wellformed(l, lens, s') && NotOver(l, lens, s')
  {
    WellformedStep(l, lens, s, step, s');
    forall i: nat | i < |lens| ensures Owed(l, lens, s', i) <= Had(l, lens, s', i) {
      AccountStep(l, lens, s, step, s', i);
    }
  }

  lemma InitExact(l: Lengths, lens: seq<nat>, s: State)
    requires Init(l, lens, s)
    ensures Wellformed(l, lens, s) && Exact(l, lens, s) && NotOver(l, lens, s)
  {
    forall i: nat | i < |lens| ensures Owed(l, lens, s, i) == Had(l, lens, s, i) {
      NonePending(l, lens, i, TotalPieces(l));
    }
  }

  /** In every run in which no had piece passes again and no pause drops a credit, crediting piece by
      piece gives what a recalculation would. */
  lemma {:induction false} CountersStayExact(l: Lengths, lens: seq<nat>, states: seq<State>, steps: seq<Step>, n: nat)
    requires Run(l, lens, states, steps) && n <= |steps| && TotalLength(lens) == l.total
    requires forall k :: 0 <= k < n ==> !Repass(l, states[k], steps[k]) && !DropsCredit(states[k], steps[k])
    ensures Wellformed(l, lens, states[n]) && Exact(l, lens, states[n])
  {
    if n > 0 {
      CountersStayExact(l, lens, states, steps, n - 1);
      ExactStep(l, lens, states[n - 1], steps[n - 1], states[n]);
    } else {
      InitExact(l, lens, states[0]);
    }
  }

  lemma {:induction false} NeverOver(l: Lengths, lens: seq<nat>, states: seq<State>, steps: seq<Step>, n: nat)
    requires Run(l, lens, states, steps) && n <= |steps|
    requires forall k :: 0 <= k < n ==> !Repass(l, states[k], steps[k])
    ensures Wellformed(l, lens, states[n]) && NotOver(l, lens, states[n])
  {
    if n > 0 {
      NeverOver(l, lens, states, steps, n - 1);
      NotOverStep(l, lens, states[n - 1], steps[n - 1], states[n]);
    } else {
      InitExact(l, lens, states[0]);
    }
  }

  /** Counters that do not exceed the bytes had never hide a missing piece. */
  lemma MissingIsShown(l: Lengths, lens: seq<nat>, s: State, p: nat)
    requires Wellformed(l, lens, s) && NotOver(l, lens, s) && TotalLength(lens) == l.total
    requires p < TotalPieces(l) && !s.bits.have[p]
    ensures Shown(l, lens, s.counters, p)
  {
    var i := SomeHolder(l, lens, p);
    CounterFull(l, lens, s.bits.have, i);
    HadUpTo(l, lens, s.bits.have, i, TotalPieces(l));
    assert Owed(l, lens, s, i) <= Had(l, lens, s, i) < lens[i];
  }

  /** In every run without a losing step and without a second pass of a had piece, every needed piece
      is being hashed, in flight, or queued and offered to peers, in every state. */
  lemma EveryNeededPieceOffered(l: Lengths, lens: seq<nat>, states: seq<State>, steps: seq<Step>, n: nat, order: seq<nat>, p: nat)
    requires Run(l, lens, states, steps) && n <= |steps|
    requires TotalLength(lens) == l.total && TotalPieces(l) < WORD && forall i :: 0 <= i < |lens| ==> i in order
    requires forall k :: 0 <= k < n ==> !Loses(l, states[k], steps[k]) && !Repass(l, states[k], steps[k])
    ensures var s := states[n];
            && Wellformed(l, lens, s)
            && (NeededPiece(l, s.bits, p) ==>
                  p in s.hashing || p in s.inflight || p in IterQueued(l, lens, s.bits.queue, s.counters, order))
  {
    NoNeededPieceLost(l, lens, states, steps, n);
    NeverOver(l, lens, states, steps, n);
    if NeededPiece(l, states[n].bits, p) { MissingIsShown(l, lens, states[n], p); }
    OfferedIffShown(l, lens, states[n], order, p);
  }

  /** A pause taken while nothing is being hashed leaves every needed piece queued. After a resume,
      which keeps the counters, it is offered iff some file holding it does not look finished, and
      so always when no counter exceeds the bytes had. */
  lemma PauseThenResumeOffersAll(l: Lengths, lens: seq<nat>, s: State, s1: State, s2: State, order: seq<nat>, p: nat)
    requires Wellformed(l, lens, s) && Covered(l, s) && s.hashing == multiset{}
    requires Next(l, lens, s, Pause, s1) && Wellformed(l, lens, s1) && Next(l, lens, s1, Resume, s2)
    requires TotalLength(lens) == l.total && TotalPieces(l) < WORD && forall i :: 0 <= i < |lens| ==> i in order
    requires NeededPiece(l, s1.bits, p)
    ensures Wellformed(l, lens, s2) && s2.bits.queue[p] && s2.counters == s.counters
    ensures p in IterQueued(l, lens, s2.bits.queue, s2.counters, order) <==> Shown(l, lens, s.counters, p)
    ensures NotOver(l, lens, s) ==> p in IterQueued(l, lens, s2.bits.queue, s2.counters, order)
  {
    WellformedStep(l, lens, s1, Resume, s2);
    PauseQueues(l, lens, s, s1, p);
    OfferedIffShown(l, lens, s2, order, p);
    if NotOver(l, lens, s) { MissingIsShown(l, lens, s, p); }
  }
}
