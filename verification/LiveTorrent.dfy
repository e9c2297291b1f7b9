/** The live torrent's lock-guarded blocks. Each method is one step of the protocol. */
module LiveTorrent {
  import opened Lengths
  import opened FileLayout
  import opened PieceBits
  import opened FileCounters
  import opened ChunkMarking
  import opened PieceQueue
  import opened PieceProtocol
  import opened Outcomes
  import opened ChunkTracker
  import opened Streaming

  class LiveTorrent {
    const lens: seq<nat>
    const order: seq<nat>   // file ids in the order to download them
    const tracker: ChunkTracker
    const streams: TorrentStreams
    var inflight: map<nat, Peer>
    var requests: map<Peer, set<Chunk>>
    var arrived: multiset<Write>
    var writes: multiset<Write>
    var hashing: multiset<nat>
    var completing: multiset<nat>
    var live: bool   // false once the tracker was handed over by a pause

    ghost function View(): State
      reads this, tracker
    {
      State(tracker.State(), tracker.perFileBytes, inflight, requests, arrived, writes, hashing, completing, live)
    }

    ghost predicate Valid()
      reads this, tracker
    {
      && tracker.Valid() && Wellformed(tracker.lengths, lens, View())
      && TotalLength(lens) == tracker.lengths.total && TotalPieces(tracker.lengths) < WORD
      && forall i :: 0 <= i < |lens| ==> i in order
    }

    /** Going live on a tracker handed over by the initial check or by a pause. */
    constructor (tracker: ChunkTracker, streams: TorrentStreams, lens: seq<nat>, order: seq<nat>)
      requires tracker.Valid() && |tracker.perFileBytes| == |lens|
      requires TotalLength(lens) == tracker.lengths.total && TotalPieces(tracker.lengths) < WORD
      requires forall i :: 0 <= i < |lens| ==> i in order
      ensures Valid() && this.tracker == tracker && this.streams == streams && this.lens == lens && this.order == order
      ensures View() == Idle(tracker.State(), tracker.perFileBytes, true)
    {
      this.lens, this.order, this.tracker, this.streams := lens, order, tracker, streams;
      inflight, requests := map[], map[];
      arrived, writes, hashing, completing := multiset{}, multiset{}, multiset{}, multiset{};
      live := true;
    }

    /** Streamed pieces not had and not in flight come first, then the queue. */
    function Candidates(streamed: seq<nat>): seq<nat>
      requires Valid()
      reads this, tracker
    {
      Unclaimed(streamed, tracker.have, inflight)
      + IterQueued(tracker.lengths, lens, tracker.queue, tracker.perFileBytes, order)
    }

    /** Reserves the first candidate the peer has; the candidates are all legal to reserve. */
    method ReserveNextNeededPiece(peer: Peer, choked: bool, peerHas: seq<bool>, streamed: seq<nat>)
      returns (r: Result<Option<nat>>)
      requires Valid() && forall k :: 0 <= k < |streamed| ==> streamed[k] < TotalPieces(tracker.lengths)
      modifies this`inflight, tracker`queue
      ensures Valid()
      ensures r.Err? <==> !live && peer in requests && !choked
      ensures r.Ok? && r.value.Some? ==>
                Next(tracker.lengths, lens, old(View()), Reserve(peer, r.value.value), View())
      ensures !(r.Ok? && r.value.Some?) ==> View() == old(View())
      ensures peer !in requests || choked ==> r == Ok(None)
      ensures r.Ok? && r.value.Some? ==>
                inflight == old(inflight)[r.value.value := peer] && tracker.queue == old(tracker.queue)[r.value.value := false]
      ensures r.Ok? && peer in requests && !choked ==>
                ChosenFirst(tracker.lengths, lens, old(tracker.queue), tracker.have, tracker.perFileBytes, order,
                            old(inflight), streamed, peerHas, r.value)
    {
      if peer !in requests || choked {
        return Ok(None);
      }
      if !live {
        return Err("chunk tracker empty, torrent was paused");
      }
      var found := Choose(peerHas, streamed);
      if found.None? {
        return Ok(None);
      }
      TakePiece(peer, found.value);
      return Ok(found);
    }

    method TakePiece(peer: Peer, n: nat)
      requires Valid() && live && peer in requests && n < TotalPieces(tracker.lengths)
      requires (tracker.queue[n] && Shown(tracker.lengths, lens, tracker.perFileBytes, n)) || (!tracker.have[n] && n !in inflight)
      modifies this`inflight, tracker`queue
      ensures Valid() && Next(tracker.lengths, lens, old(View()), Reserve(peer, n), View())
      ensures inflight == old(inflight)[n := peer] && tracker.queue == old(tracker.queue)[n := false]
    {
      ghost var s0 := View();
      inflight := inflight[n := peer];
      tracker.ReserveNeededPiece(n);
      WellformedStep(tracker.lengths, lens, s0, Reserve(peer, n), View());
    }

    /** The first candidate the peer has. */
    method Choose(peerHas: seq<bool>, streamed: seq<nat>) returns (found: Option<nat>)
      requires Valid() && forall k :: 0 <= k < |streamed| ==> streamed[k] < TotalPieces(tracker.lengths)
      ensures ChosenFirst(tracker.lengths, lens, tracker.queue, tracker.have, tracker.perFileBytes, order, inflight, streamed, peerHas, found)
      ensures found.Some? ==>
                && found.value < TotalPieces(tracker.lengths)
                && ((tracker.queue[found.value] && Shown(tracker.lengths, lens, tracker.perFileBytes, found.value))
                    || (!tracker.have[found.value] && found.value !in inflight))
    {
      found := FirstHad(Candidates(streamed), peerHas);
      FirstOfAll(tracker.lengths, lens, tracker.queue, tracker.have, tracker.perFileBytes, order, inflight, streamed, peerHas);
      FirstHadIsMember(Candidates(streamed), peerHas);
      if found.Some? { CandidateLegal(streamed, found.value); }
    }

    lemma CandidateLegal(streamed: seq<nat>, p: nat)
      requires Valid() && forall k :: 0 <= k < |streamed| ==> streamed[k] < TotalPieces(tracker.lengths)
      requires p in Candidates(streamed)
      ensures p < TotalPieces(tracker.lengths)
      ensures (tracker.queue[p] && Shown(tracker.lengths, lens, tracker.perFileBytes, p))
              || (!tracker.have[p] && p !in inflight)
    {
      UnclaimedMembers(streamed, tracker.have, inflight, p);
      IterQueuedMembers(tracker.lengths, lens, tracker.queue, tracker.perFileBytes, order, p);
      if p in IterQueued(tracker.lengths, lens, tracker.queue, tracker.perFileBytes, order) {
        var i: nat :| Offers(lens, tracker.perFileBytes, order, i) && InRange(tracker.lengths, lens, i, p);
        RangeInTorrent(tracker.lengths, lens, i);
      }
    }

    /** Piece `p` is the one that has been in flight longest among those of other peers. */
    ghost predicate Oldest(peer: Peer, age: map<nat, real>, p: nat)
      reads this
    {
      && p in inflight && inflight[p] != peer && p in age
      && forall q :: q in inflight && q in age && inflight[q] != peer ==> age[q] <= age[p]
    }

    predicate BeingWritten(p: nat)
      reads this
    {
      exists w :: w in writes && w.chunk.piece == p
    }

    /** Takes over the oldest piece of another peer, if it has been in flight more than `threshold`
        times our average download time, and nobody is writing it. `age` is how long each piece has
        been in flight. */
    method TryStealOldSlowPiece(peer: Peer, average: Option<real>, threshold: real, age: map<nat, real>)
      returns (r: Option<nat>)
      requires Valid() && live && age.Keys == inflight.Keys
      modifies this`inflight
      ensures Valid()
      ensures r.Some? ==>
                && average.Some? && old(Oldest(peer, age, r.value)) && age[r.value] > average.value * threshold
                && !old(BeingWritten(r.value))
                && inflight == old(inflight)[r.value := peer]
                && Next(tracker.lengths, lens, old(View()), Steal(peer, r.value), View())
      ensures r.None? ==>
                && View() == old(View())
                && (average.None? || (forall p :: p in inflight ==> inflight[p] == peer)
                    || exists p :: Oldest(peer, age, p) && (age[p] <= average.value * threshold || BeingWritten(p)))
    {
      if average.None? {
        return None;
      }
      var oldest := FindOldest(peer, age);
      if oldest.None? {
        return None;
      }
      var p := oldest.value;
      if age[p] <= average.value * threshold || BeingWritten(p) {
        return None;
      }
      ghost var s0 := View();
      inflight := inflight[p := peer];
      assert Next(tracker.lengths, lens, s0, Steal(peer, p), View());
      WellformedStep(tracker.lengths, lens, s0, Steal(peer, p), View());
      return Some(p);
    }

    method FindOldest(peer: Peer, age: map<nat, real>) returns (r: Option<nat>)
      requires age.Keys == inflight.Keys
      ensures r.Some? ==> Oldest(peer, age, r.value)
      ensures r.None? ==> forall p :: p in inflight ==> inflight[p] == peer
    {
      r := None;
      var todo := inflight.Keys;
      while todo != {}
        invariant todo <= inflight.Keys
        invariant r.Some? ==> r.value in inflight && r.value !in todo && inflight[r.value] != peer
        invariant r.Some? ==> forall q :: q in inflight && q !in todo && inflight[q] != peer ==> age[q] <= age[r.value]
        invariant r.None? ==> forall q :: q in inflight && q !in todo ==> inflight[q] == peer
        decreases todo
      {
        var p :| p in todo;
        todo := todo - {p};
        if inflight[p] != peer && (r.None? || age[p] >= age[r.value]) {
          r := Some(p);
        }
      }
    }

    /** The request was ours to receive; otherwise the peer is dropped. */
    method ReceiveChunk(peer: Peer, c: Chunk) returns (ok: bool)
      requires Valid() && live
      modifies this`requests, this`arrived
      ensures Valid() && (ok <==> peer in old(requests) && c in old(requests)[peer])
      ensures ok ==> requests == old(requests)[peer := old(requests)[peer] - {c}] && arrived == old(arrived) + multiset{Write(peer, c)}
      ensures if ok then Next(tracker.lengths, lens, old(View()), Receive(peer, c), View()) else View() == old(View())
    {
      if peer !in requests || c !in requests[peer] {
        return false;
      }
      requests := requests[peer := requests[peer] - {c}];
      arrived := arrived + multiset{Write(peer, c)};
      return true;
    }

    /** Before writing: drop the chunk if the piece was stolen or is gone, else lock the piece. */
    method CheckStolen(w: Write) returns (mine: bool)
      requires Valid() && live && w in arrived
      modifies this`arrived, this`writes
      ensures Valid() && (mine <==> w.chunk.piece in inflight && inflight[w.chunk.piece] == w.peer)
      ensures arrived == old(arrived) - multiset{w}
      ensures writes == if mine then old(writes) + multiset{w} else old(writes)
      ensures Next(tracker.lengths, lens, old(View()), CheckOwner(w), View())
    {
      ghost var s0 := View();
      arrived := arrived - multiset{w};
      mine := w.chunk.piece in inflight && inflight[w.chunk.piece] == w.peer;
      if mine {
        writes := writes + multiset{w};
      }
      assert Next(tracker.lengths, lens, s0, CheckOwner(w), View());
      WellformedStep(tracker.lengths, lens, s0, CheckOwner(w), View());
    }

    /** After writing: mark the chunk; when it completes an in-flight piece, the caller goes on to
        check the piece's hash. */
    method MarkWritten(w: Write) returns (check: bool)
      requires Valid() && live && w in writes
      modifies this`inflight, this`writes, this`hashing, tracker`chunks
      ensures Valid()
      ensures Next(tracker.lengths, lens, old(View()), MarkChunk(w), View())
      ensures check <==>
                && w.chunk.piece in old(inflight)
                && !AllBytes(tracker.lengths, old(tracker.chunks), w.chunk.piece)
                && AllBytes(tracker.lengths, tracker.chunks, w.chunk.piece)
      ensures writes == old(writes) - multiset{w}
      ensures inflight == if check then old(inflight) - {w.chunk.piece} else old(inflight)
      ensures hashing == if check then old(hashing) + multiset{w.chunk.piece} else old(hashing)
    {
      ghost var s0 := View();
      var answer := MarkInTracker(w.chunk);
      check := answer == Completed && w.chunk.piece in inflight;
      EndWrite(w);
      if check { StartCheck(w.chunk.piece); }
      WriteTaken(tracker.lengths, lens, s0, w, View());
    }

    /** The tracker takes a chunk's offset and size, which identify it. */
    method MarkInTracker(c: Chunk) returns (answer: ChunkMarkingResult)
      requires tracker.Valid() && IsChunk(tracker.lengths, c)
      modifies tracker`chunks
      ensures tracker.Valid() && (tracker.chunks, answer) == Mark(tracker.lengths, old(tracker.chunks), c.piece, c.index)
      ensures answer == Completed <==>
                !AllBytes(tracker.lengths, old(tracker.chunks), c.piece) && AllBytes(tracker.lengths, tracker.chunks, c.piece)
    {
      var begin := c.index * CHUNK_SIZE;
      ChunkBegin(tracker.lengths, c);
      var r := tracker.MarkChunkDownloaded(c.piece, begin, Min(CHUNK_SIZE, PieceLength(tracker.lengths, c.piece) - begin));
      answer := r.value;
    }

    method EndWrite(w: Write)
      modifies this`writes
      ensures View() == old(View()).(writes := old(writes) - multiset{w})
    {
      writes := writes - multiset{w};
    }

    method StartCheck(p: nat)
      modifies this`inflight, this`hashing
      ensures View() == old(View()).(inflight := old(inflight) - {p}, hashing := old(hashing) + multiset{p})
    {
      inflight := inflight - {p};
      hashing := hashing + multiset{p};
    }

    method PassHash(p: nat)
      requires Valid() && live && p in hashing
      modifies this`hashing, this`completing, tracker`have, tracker`hns
      ensures Valid() && Next(tracker.lengths, lens, old(View()), HashPass(p), View())
      ensures tracker.have == old(tracker.have)[p := true]
      ensures hashing == old(hashing) - multiset{p} && completing == old(completing) + multiset{p}
    {
      ghost var s0 := View();
      tracker.MarkPieceDownloaded(p);
      hashing := hashing - multiset{p};
      completing := completing + multiset{p};
      assert Next(tracker.lengths, lens, s0, HashPass(p), View());
      WellformedStep(tracker.lengths, lens, s0, HashPass(p), View());
    }

    method FailHash(p: nat)
      requires Valid() && live && p in hashing
      modifies this`hashing, tracker`queue, tracker`chunks
      ensures Valid() && Next(tracker.lengths, lens, old(View()), HashFail(p), View())
      ensures hashing == old(hashing) - multiset{p}
      ensures tracker.queue == if tracker.have[p] then old(tracker.queue) else old(tracker.queue)[p := true]
      ensures Broken(tracker.lengths, old(tracker.State()), {p}, tracker.State())
    {
      ghost var s0 := View();
      BrokenNone(tracker.lengths, tracker.State());
      BrokenStep(tracker.lengths, tracker.State(), {}, tracker.State(), p);
      assert {} + {p} == {p};
      tracker.MarkPieceBrokenIfNotHave(p);
      hashing := hashing - multiset{p};
      assert Next(tracker.lengths, lens, s0, HashFail(p), View());
      WellformedStep(tracker.lengths, lens, s0, HashFail(p), View());
    }

    /** A piece that passed is credited to the files holding it, and the streams waiting for it are
        woken. With `disconnect` the caller goes on to put peers aside: nothing is needed any more.
        On a paused torrent nothing happens: credit and wakeup are lost. */
    method OnPieceCompleted(p: nat, unfinishedStreams: bool) returns (r: Result<set<nat>>, disconnect: bool)
      requires Valid() && (live ==> p in completing)
      modifies this`completing, tracker`perFileBytes, streams
      ensures Valid() && (r.Ok? <==> live)
      ensures r.Ok? ==> Next(tracker.lengths, lens, old(View()), Complete(p), View())
      ensures r.Ok? ==> completing == old(completing) - multiset{p}
      ensures r.Ok? ==> forall i :: 0 <= i < |lens| ==>
                tracker.perFileBytes[i] == old(tracker.perFileBytes)[i] + SizeInFile(tracker.lengths, lens, p, i)
      ensures r.Ok? ==> r.value == Waiting(tracker.lengths, old(streams.streams), p)
                        && streams.streams == Woken(tracker.lengths, old(streams.streams), p)
      ensures r.Err? ==> View() == old(View()) && streams.streams == old(streams.streams)
      ensures disconnect <==>
                r.Ok? && !unfinishedStreams && forall q: nat :: !NeededPiece(tracker.lengths, tracker.State(), q)
    {
      if !live {
        return Err("chunk tracker empty, torrent was paused"), false;
      }
      ghost var s0 := View();
      CreditFiles(p);
      completing := completing - multiset{p};
      assert Next(tracker.lengths, lens, s0, Complete(p), View());
      WellformedStep(tracker.lengths, lens, s0, Complete(p), View());
      var woken := streams.WakeStreamsOnPieceCompleted(tracker.lengths, p);
      FinishedMeans(tracker.lengths, tracker.State());
      return Ok(woken), tracker.hns.Finished() && !unfinishedStreams;
    }

    /** A live peer is put aside as not needed; when its connection ends, nothing more is done. */
    method SetNotNeeded(peer: Peer)
      requires Valid() && live && peer in requests
      modifies this`requests
      ensures Valid() && Next(tracker.lengths, lens, old(View()), NotNeeded(peer), View())
      ensures requests.Keys == old(requests).Keys - {peer} && forall q :: q in requests ==> requests[q] == old(requests)[q]
    {
      ghost var s0 := View();
      requests := requests - {peer};
      assert Next(tracker.lengths, lens, s0, NotNeeded(peer), View());
      WellformedStep(tracker.lengths, lens, s0, NotNeeded(peer), View());
    }

    /** Visits only the consecutive files whose range names the piece; that credits every file with
        exactly its bytes of it. */
    method CreditFiles(p: nat)
      requires p < TotalPieces(tracker.lengths) && |tracker.perFileBytes| == |lens|
      requires TotalLength(lens) == tracker.lengths.total
      modifies tracker`perFileBytes
      ensures tracker.perFileBytes == Credited(tracker.lengths, lens, old(tracker.perFileBytes), p)
    {
      ghost var was := tracker.perFileBytes;
      var i := 0;
      while i < |lens| && !InRange(tracker.lengths, lens, i, p)
        invariant 0 <= i <= |lens|
        invariant forall j :: 0 <= j < i ==> !InRange(tracker.lengths, lens, j, p)
      {
        i := i + 1;
      }
      ghost var first := i;
      while i < |lens| && InRange(tracker.lengths, lens, i, p)
        invariant first <= i <= |lens| == |tracker.perFileBytes|
        invariant forall j :: first <= j < i ==> InRange(tracker.lengths, lens, j, p)
        invariant forall j :: 0 <= j < |lens| ==>
                    tracker.perFileBytes[j] == was[j] + (if first <= j < i then SizeInFile(tracker.lengths, lens, p, j) else 0)
      {
        var _ := tracker.UpdateFileHaveOnPieceCompleted(p, i, lens);
        i := i + 1;
      }
      forall j | 0 <= j < |lens| && !(first <= j < i) ensures SizeInFile(tracker.lengths, lens, p, j) == 0 {
        if j >= i && InRange(tracker.lengths, lens, j, p) {
          FilesOfPieceContiguous(tracker.lengths, lens, p, first, i, j);
        }
        SizeInFilePositive(tracker.lengths, lens, p, j);
      }
    }

    /** A live peer is gone: the pieces of its outstanding requests are needed again. */
    method OnPeerDied(peer: Peer)
      requires Valid() && live && peer in requests
      modifies this`requests, tracker`queue, tracker`chunks
      ensures Valid() && Next(tracker.lengths, lens, old(View()), PeerDied(peer), View())
      ensures requests.Keys == old(requests).Keys - {peer} && forall q :: q in requests ==> requests[q] == old(requests)[q]
      ensures Broken(tracker.lengths, old(tracker.State()), PiecesOf(old(requests)[peer]), tracker.State())
    {
      CancelRequests(requests[peer]);
      requests := requests - {peer};
    }

    method CancelRequests(reqs: set<Chunk>)
      requires tracker.Valid() && forall c :: c in reqs ==> IsChunk(tracker.lengths, c)
      modifies tracker`queue, tracker`chunks
      ensures tracker.Valid() && Broken(tracker.lengths, old(tracker.State()), PiecesOf(reqs), tracker.State())
    {
      ghost var b0 := tracker.State();
      var todo := reqs;
      ghost var done: set<Chunk> := {};
      while todo != {}
        invariant done + todo == reqs
        invariant Broken(tracker.lengths, b0, PiecesOf(done), tracker.State())
        decreases todo
      {
        var req :| req in todo;
        BrokenStep(tracker.lengths, b0, PiecesOf(done), tracker.State(), req.piece);
        tracker.MarkPieceBrokenIfNotHave(req.piece);
        assert PiecesOf(done + {req}) == PiecesOf(done) + {req.piece};
        done, todo := done + {req}, todo - {req};
      }
      assert done == reqs;
    }

    /** Selects the files anew. With `reconnect` the caller goes on to give every peer that was not
        needed another chance: something is needed again. */
    method UpdateOnlyFiles(only: set<nat>) returns (r: Result<HaveNeededSelected>, reconnect: bool)
      requires Valid()
      modifies tracker`queue, tracker`chunks, tracker`selected, tracker`hns
      ensures Valid()
      ensures r.Ok? <==> live
      ensures r.Ok? ==> Next(tracker.lengths, lens, old(View()), Reselected(only), View())
      ensures r.Err? ==> View() == old(View())
      ensures reconnect <==> r.Ok? && exists q: nat :: NeededPiece(tracker.lengths, tracker.State(), q)
    {
      if !live {
        return Err("chunk tracker empty, torrent was paused"), false;
      }
      r := tracker.UpdateOnlyFiles(lens, only);
      FinishedMeans(tracker.lengths, tracker.State());
      reconnect := !tracker.hns.Finished();
    }

    /** Hands the tracker over with every in-flight piece queued again; tasks still running find
        no tracker and change nothing any more. */
    method PauseTorrent()
      requires Valid() && live
      modifies this, tracker`queue, tracker`chunks
      ensures Valid() && Next(tracker.lengths, lens, old(View()), Pause, View())
      ensures View() == Idle(tracker.State(), old(tracker.perFileBytes), false)
      ensures Broken(tracker.lengths, old(tracker.State()), old(inflight).Keys, tracker.State())
    {
      ghost var s0 := View();
      Requeue(inflight.Keys);
      ghost var b := tracker.State();
      StopTasks();
      PauseTaken(tracker.lengths, lens, s0, b);
    }

    method StopTasks()
      modifies this`inflight, this`requests, this`arrived, this`writes, this`hashing, this`completing, this`live
      ensures View() == Idle(old(tracker.State()), old(tracker.perFileBytes), false)
    {
      inflight, requests := map[], map[];
      arrived, writes, hashing, completing := multiset{}, multiset{}, multiset{}, multiset{};
      live := false;
    }

    method Requeue(pieces: set<nat>)
      requires tracker.Valid() && forall p :: p in pieces ==> p < TotalPieces(tracker.lengths)
      modifies tracker`queue, tracker`chunks
      ensures tracker.Valid() && Broken(tracker.lengths, old(tracker.State()), pieces, tracker.State())
    {
      ghost var b0 := tracker.State();
      var todo := pieces;
      ghost var done: set<nat> := {};
      while todo != {}
        invariant done + todo == pieces
        invariant Broken(tracker.lengths, b0, done, tracker.State())
        decreases todo
      {
        var p :| p in todo;
        BrokenStep(tracker.lengths, b0, done, tracker.State(), p);
        tracker.MarkPieceBrokenIfNotHave(p);
        done, todo := done + {p}, todo - {p};
      }
      assert done == pieces;
    }
  }

  /** A tracker made from the initial check and going live starts the protocol. */
  method StartDownload(l: Lengths, have: seq<bool>, selected: seq<bool>, lens: seq<nat>, order: seq<nat>, streams: TorrentStreams)
    returns (r: Result<LiveTorrent>)
    requires TotalLength(lens) == l.total && TotalPieces(l) < WORD && forall i :: 0 <= i < |lens| ==> i in order
    ensures r.Ok? <==> |have| == |selected| && |have| >= TotalPieces(l)
    ensures r.Ok? ==> fresh(r.value) && r.value.Valid() && r.value.tracker.lengths == l && Init(l, lens, r.value.View())
  {
    var tracker := ChunkTracker.New(l, have, selected, lens);
    if tracker.Err? {
      return Err(tracker.error);
    }
    var live := new LiveTorrent(tracker.value, streams, lens, order);
    return Ok(live);
  }

  lemma FinishedMeans(l: Lengths, b: Bits)
    requires Wf(l, b)
    ensures Totals(l, b.have, b.selected, TotalPieces(l)).Finished() <==> forall q: nat :: !NeededPiece(l, b, q)
  {
    TotalsMeaning(l, b);
    if Totals(l, b.have, b.selected, TotalPieces(l)).Finished() {
      forall q: nat ensures !NeededPiece(l, b, q) {}
    }
    if forall q: nat :: !NeededPiece(l, b, q) {
      forall q | 0 <= q < TotalPieces(l) && b.selected[q] ensures b.have[q] { assert !NeededPiece(l, b, q); }
    }
  }

  /** The write is over; with `check`, its piece goes from in flight to being hashed. */
  function Written(s: State, w: Write, check: bool): State {
    if check then
      s.(writes := s.writes - multiset{w}, inflight := s.inflight - {w.chunk.piece},
         hashing := s.hashing + multiset{w.chunk.piece})
    else s.(writes := s.writes - multiset{w})
  }

  lemma WriteTaken(l: Lengths, lens: seq<nat>, s: State, w: Write, s': State)
    requires Wellformed(l, lens, s) && s.live && w in s.writes
    requires var (chunks, answer) := Mark(l, s.bits.chunks, w.chunk.piece, w.chunk.index);
             s' == Written(s.(bits := s.bits.(chunks := chunks)), w, answer == Completed && w.chunk.piece in s.inflight)
    ensures Next(l, lens, s, MarkChunk(w), s') && Wellformed(l, lens, s')
  {
    WellformedStep(l, lens, s, MarkChunk(w), s');
  }

  lemma PauseTaken(l: Lengths, lens: seq<nat>, s: State, b: Bits)
    requires Wellformed(l, lens, s) && s.live && Broken(l, s.bits, s.inflight.Keys, b)
    ensures var s' := Idle(b, s.counters, false);
            Wellformed(l, lens, s') && Next(l, lens, s, Pause, s')
  {
  }

  function Unclaimed(streamed: seq<nat>, have: seq<bool>, inflight: map<nat, Peer>): seq<nat> {
    if streamed == [] then []
    else
      var p := streamed[0];
      (if p < |have| && !have[p] && p !in inflight then [p] else []) + Unclaimed(streamed[1..], have, inflight)
  }

  lemma {:induction false} UnclaimedMembers(streamed: seq<nat>, have: seq<bool>, inflight: map<nat, Peer>, p: nat)
    ensures p in Unclaimed(streamed, have, inflight) <==> p in streamed && p < |have| && !have[p] && p !in inflight
  {
    if streamed != [] {
      UnclaimedMembers(streamed[1..], have, inflight, p);
      assert streamed == [streamed[0]] + streamed[1..];
    }
  }

  /** The first candidate the peer has. */
  function FirstHad(candidates: seq<nat>, peerHas: seq<bool>): Option<nat> {
    if candidates == [] then None
    else if candidates[0] < |peerHas| && peerHas[candidates[0]] then Some(candidates[0])
    else FirstHad(candidates[1..], peerHas)
  }

  lemma {:induction false} FirstHadIsMember(candidates: seq<nat>, peerHas: seq<bool>)
    ensures var r := FirstHad(candidates, peerHas);
            && (r.Some? ==> r.value in candidates && r.value < |peerHas| && peerHas[r.value])
            && (r.None? ==> forall p: nat :: p in candidates && p < |peerHas| ==> !peerHas[p])
  {
    if candidates != [] {
      FirstHadIsMember(candidates[1..], peerHas);
      assert candidates == [candidates[0]] + candidates[1..];
    }
  }

  // ---- which candidate comes first ----

  /** The peer has piece `p`. */
  predicate Has(peerHas: seq<bool>, p: nat) { p < |peerHas| && peerHas[p] }

  /** The `k`-th streamed piece is neither had nor in flight, and the peer has it. */
  predicate Claims(streamed: seq<nat>, have: seq<bool>, inflight: map<nat, Peer>, peerHas: seq<bool>, k: nat) {
    && k < |streamed| && streamed[k] < |have| && !have[streamed[k]] && streamed[k] !in inflight && Has(peerHas, streamed[k])
  }

  /** The earliest such piece. */
  ghost predicate FirstClaim(streamed: seq<nat>, have: seq<bool>, inflight: map<nat, Peer>, peerHas: seq<bool>, r: Option<nat>) {
    exists k: nat ::
      && Claims(streamed, have, inflight, peerHas, k) && r == Some(streamed[k])
      && forall j: nat :: j < k ==> !Claims(streamed, have, inflight, peerHas, j)
  }

  /** File `i` looks unfinished, and piece `p` of its range is queued and the peer has it. */
  predicate FileOffers(l: Lengths, lens: seq<nat>, queue: seq<bool>, perFile: seq<nat>, peerHas: seq<bool>, i: nat, p: nat)
    requires |perFile| == |lens|
  {
    && i < |lens| && perFile[i] != lens[i] && InRange(l, lens, i, p)
    && p < |queue| && queue[p] && Has(peerHas, p)
  }

  /** From the first listed file that offers anything, the piece of lowest rank in its range; nothing
      if no file does. */
  ghost predicate FirstQueued(l: Lengths, lens: seq<nat>, queue: seq<bool>, perFile: seq<nat>, order: seq<nat>, peerHas: seq<bool>, r: Option<nat>)
    requires |perFile| == |lens|
  {
    match r
    case None => forall f, p: nat :: 0 <= f < |order| ==> !FileOffers(l, lens, queue, perFile, peerHas, order[f], p)
    case Some(n) =>
      exists f :: 0 <= f < |order| && FirstIn(l, lens, queue, perFile, peerHas, order[f], n)
        && forall g, p: nat :: 0 <= g < f ==> !FileOffers(l, lens, queue, perFile, peerHas, order[g], p)
  }

  ghost predicate FirstIn(l: Lengths, lens: seq<nat>, queue: seq<bool>, perFile: seq<nat>, peerHas: seq<bool>, i: nat, n: nat)
    requires |perFile| == |lens|
  {
    && FileOffers(l, lens, queue, perFile, peerHas, i, n)
    && forall p: nat :: FileOffers(l, lens, queue, perFile, peerHas, i, p) ==>
         Rank(RangeStart(l, lens, i), RangeEnd(l, lens, i), n) <= Rank(RangeStart(l, lens, i), RangeEnd(l, lens, i), p)
  }

  lemma {:induction false} FirstHadConcat(a: seq<nat>, b: seq<nat>, peerHas: seq<bool>)
    ensures FirstHad(a + b, peerHas) == if FirstHad(a, peerHas).Some? then FirstHad(a, peerHas) else FirstHad(b, peerHas)
  {
    if a == [] {
      assert a + b == b;
    } else {
      FirstHadConcat(a[1..], b, peerHas);
      assert (a + b)[0] == a[0] && (a + b)[1..] == a[1..] + b;
    }
  }

  lemma {:induction false} FirstOfStreamed(streamed: seq<nat>, have: seq<bool>, inflight: map<nat, Peer>, peerHas: seq<bool>)
    ensures var r := FirstHad(Unclaimed(streamed, have, inflight), peerHas);
            if exists k: nat :: Claims(streamed, have, inflight, peerHas, k)
            then FirstClaim(streamed, have, inflight, peerHas, r) else r == None
  {
    if streamed != [] {
      var rest := streamed[1..];
      FirstOfStreamed(rest, have, inflight, peerHas);
      StreamedHead(streamed, have, inflight, peerHas);
      forall k: nat ensures Claims(rest, have, inflight, peerHas, k) <==> Claims(streamed, have, inflight, peerHas, k + 1) {}
      if Claims(streamed, have, inflight, peerHas, 0) {
      } else if k: nat :| Claims(streamed, have, inflight, peerHas, k) {
        assert Claims(rest, have, inflight, peerHas, k - 1);
        var r := FirstHad(Unclaimed(rest, have, inflight), peerHas);
        var m: nat :| Claims(rest, have, inflight, peerHas, m) && r == Some(rest[m])
                      && forall j: nat :: j < m ==> !Claims(rest, have, inflight, peerHas, j);
        ClaimLater(streamed, have, inflight, peerHas, m);
      } else {
        assert forall k: nat :: !Claims(rest, have, inflight, peerHas, k);
      }
    }
  }

  lemma ClaimLater(streamed: seq<nat>, have: seq<bool>, inflight: map<nat, Peer>, peerHas: seq<bool>, m: nat)
    requires streamed != [] && !Claims(streamed, have, inflight, peerHas, 0) && Claims(streamed[1..], have, inflight, peerHas, m)
    requires forall j: nat :: j < m ==> !Claims(streamed[1..], have, inflight, peerHas, j)
    ensures FirstClaim(streamed, have, inflight, peerHas, Some(streamed[1..][m]))
  {
    forall j: nat | j < m + 1 ensures !Claims(streamed, have, inflight, peerHas, j) {
      if j > 0 { assert !Claims(streamed[1..], have, inflight, peerHas, j - 1); }
    }
    assert Claims(streamed, have, inflight, peerHas, m + 1);
  }

  lemma StreamedHead(streamed: seq<nat>, have: seq<bool>, inflight: map<nat, Peer>, peerHas: seq<bool>)
    requires streamed != []
    ensures FirstHad(Unclaimed(streamed, have, inflight), peerHas)
            == if Claims(streamed, have, inflight, peerHas, 0) then Some(streamed[0])
               else FirstHad(Unclaimed(streamed[1..], have, inflight), peerHas)
  {
    var p := streamed[0];
    var head := if p < |have| && !have[p] && p !in inflight then [p] else [];
    FirstHadConcat(head, Unclaimed(streamed[1..], have, inflight), peerHas);
  }

  /** The first piece of a sequence that is queued and the peer has. */
  lemma {:induction false} FirstFiltered(s: seq<nat>, queue: seq<bool>, peerHas: seq<bool>)
    ensures var r := FirstHad(Filter(s, queue), peerHas);
            && (r.None? ==> forall j :: 0 <= j < |s| ==> !Wanted(queue, peerHas, s[j]))
            && (r.Some? ==> exists k :: 0 <= k < |s| && r.value == s[k] && Wanted(queue, peerHas, s[k])
                                        && forall j :: 0 <= j < k ==> !Wanted(queue, peerHas, s[j]))
  {
    if s != [] {
      FirstFiltered(s[1..], queue, peerHas);
      var head := if s[0] < |queue| && queue[s[0]] then [s[0]] else [];
      FirstHadConcat(head, Filter(s[1..], queue), peerHas);
      var r := FirstHad(Filter(s[1..], queue), peerHas);
      if !Wanted(queue, peerHas, s[0]) && r.Some? {
        var k :| 0 <= k < |s[1..]| && r.value == s[1..][k] && Wanted(queue, peerHas, s[1..][k])
                 && forall j :: 0 <= j < k ==> !Wanted(queue, peerHas, s[1..][j]);
        forall j | 0 <= j < k + 1 ensures !Wanted(queue, peerHas, s[j]) {
          if j > 0 { assert s[j] == s[1..][j - 1]; }
        }
        assert s[k + 1] == r.value;
      }
    }
  }

  predicate Wanted(queue: seq<bool>, peerHas: seq<bool>, p: nat) { p < |queue| && queue[p] && Has(peerHas, p) }

  /** Within one file the piece of lowest rank comes first. */
  lemma FirstInFile(l: Lengths, lens: seq<nat>, queue: seq<bool>, perFile: seq<nat>, peerHas: seq<bool>, i: nat)
    requires |perFile| == |lens| && TotalLength(lens) <= l.total && TotalPieces(l) < WORD && i < |lens| && perFile[i] != lens[i]
    ensures var r := FirstHad(Filter(PiecePriorities(RangeStart(l, lens, i), RangeHi(l, lens, i)), queue), peerHas);
            && (r.None? ==> forall p: nat :: !FileOffers(l, lens, queue, perFile, peerHas, i, p))
            && (r.Some? ==> FirstIn(l, lens, queue, perFile, peerHas, i, r.value))
  {
    var lo, hi := RangeStart(l, lens, i), RangeHi(l, lens, i);
    var s := PiecePriorities(lo, hi);
    PrioritiesPermuteRange(lo, hi);
    FirstFiltered(s, queue, peerHas);
    var r := FirstHad(Filter(s, queue), peerHas);
    forall p: nat | FileOffers(l, lens, queue, perFile, peerHas, i, p)
      ensures r.Some? && Rank(lo, hi, r.value) <= Rank(lo, hi, p)
    {
      assert p in s && Wanted(queue, peerHas, p);
      var j :| 0 <= j < |s| && s[j] == p;
      var k :| 0 <= k < |s| && r.value == s[k] && Wanted(queue, peerHas, s[k])
               && forall m :: 0 <= m < k ==> !Wanted(queue, peerHas, s[m]);
      RankIsIndex(lo, hi, j);
      RankIsIndex(lo, hi, k);
    }
    if r.Some? { assert r.value in s; }
  }

  lemma {:induction false} FirstOfQueued(l: Lengths, lens: seq<nat>, queue: seq<bool>, perFile: seq<nat>, order: seq<nat>, peerHas: seq<bool>)
    requires |perFile| == |lens| && TotalLength(lens) <= l.total && TotalPieces(l) < WORD
    ensures FirstQueued(l, lens, queue, perFile, order, peerHas, FirstHad(IterQueued(l, lens, queue, perFile, order), peerHas))
  {
    if order != [] {
      var i, rest := order[0], order[1..];
      FirstOfQueued(l, lens, queue, perFile, rest, peerHas);
      var head := if i < |lens| && perFile[i] != lens[i]
                  then Filter(PiecePriorities(RangeStart(l, lens, i), RangeHi(l, lens, i)), queue) else [];
      FirstHadConcat(head, IterQueued(l, lens, queue, perFile, rest), peerHas);
      if i < |lens| && perFile[i] != lens[i] { FirstInFile(l, lens, queue, perFile, peerHas, i); }
      if FirstHad(head, peerHas).None? {
        LaterFile(l, lens, queue, perFile, order, peerHas, FirstHad(IterQueued(l, lens, queue, perFile, rest), peerHas));
      }
    }
  }

  lemma LaterFile(l: Lengths, lens: seq<nat>, queue: seq<bool>, perFile: seq<nat>, order: seq<nat>, peerHas: seq<bool>, r: Option<nat>)
    requires |perFile| == |lens| && order != [] && forall p: nat :: !FileOffers(l, lens, queue, perFile, peerHas, order[0], p)
    requires FirstQueued(l, lens, queue, perFile, order[1..], peerHas, r)
    ensures FirstQueued(l, lens, queue, perFile, order, peerHas, r)
  {
    var rest := order[1..];
    if r.Some? {
      var f :| 0 <= f < |rest| && FirstIn(l, lens, queue, perFile, peerHas, rest[f], r.value)
               && forall g, p: nat :: 0 <= g < f ==> !FileOffers(l, lens, queue, perFile, peerHas, rest[g], p);
      assert order[f + 1] == rest[f];
      forall g, p: nat | 0 <= g < f + 1 ensures !FileOffers(l, lens, queue, perFile, peerHas, order[g], p) {
        if g > 0 { assert order[g] == rest[g - 1]; }
      }
    } else {
      forall g, p: nat | 0 <= g < |order| ensures !FileOffers(l, lens, queue, perFile, peerHas, order[g], p) {
        if g > 0 { assert order[g] == rest[g - 1]; }
      }
    }
  }

  /** Which piece a peer is given: the earliest streamed piece that is neither had nor in flight and that
      it has, if there is one; else the first one queued. */
  ghost predicate ChosenFirst(l: Lengths, lens: seq<nat>, queue: seq<bool>, have: seq<bool>, perFile: seq<nat>, order: seq<nat>,
                              inflight: map<nat, Peer>, streamed: seq<nat>, peerHas: seq<bool>, r: Option<nat>)
    requires |perFile| == |lens|
  {
    if exists k: nat :: Claims(streamed, have, inflight, peerHas, k)
    then FirstClaim(streamed, have, inflight, peerHas, r)
    else FirstQueued(l, lens, queue, perFile, order, peerHas, r)
  }

  lemma FirstOfAll(l: Lengths, lens: seq<nat>, queue: seq<bool>, have: seq<bool>, perFile: seq<nat>, order: seq<nat>,
                   inflight: map<nat, Peer>, streamed: seq<nat>, peerHas: seq<bool>)
    requires |perFile| == |lens| && TotalLength(lens) <= l.total && TotalPieces(l) < WORD
    ensures ChosenFirst(l, lens, queue, have, perFile, order, inflight, streamed, peerHas,
                        FirstHad(Unclaimed(streamed, have, inflight) + IterQueued(l, lens, queue, perFile, order), peerHas))
  {
    FirstHadConcat(Unclaimed(streamed, have, inflight), IterQueued(l, lens, queue, perFile, order), peerHas);
    FirstOfStreamed(streamed, have, inflight, peerHas);
    FirstOfQueued(l, lens, queue, perFile, order, peerHas);
  }

  /** A chunk's own offset and size identify it. */
  lemma ChunkBegin(l: Lengths, c: Chunk)
    requires IsChunk(l, c)
    ensures c.index * CHUNK_SIZE < PieceLength(l, c.piece)
    ensures ReceivedChunk(l, c.piece, c.index * CHUNK_SIZE, Min(CHUNK_SIZE, PieceLength(l, c.piece) - c.index * CHUNK_SIZE))
            == Some(c.index)
  {
  }
}
