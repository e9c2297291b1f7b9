/** Streaming a file while it downloads: which pieces come first, and reads gated on them. */
module Streaming {
  import opened Lengths
  import opened FlatStorage
  import opened Outcomes

  /** 32 MiB of lookahead per stream. */
  const PER_STREAM_BUF: nat := 32 * 1024 * 1024

  datatype StreamState = StreamState(fileLen: nat, fileOffset: nat, position: nat, waker: bool)

  /** The stream's file lies inside the torrent and its position inside the file. */
  predicate Inside(l: Lengths, s: StreamState) {
    s.position <= s.fileLen && s.fileOffset + s.fileLen <= l.total
  }

  /** The piece at the position, if there is one. */
  function CurrentPiece(l: Lengths, s: StreamState): (r: Option<nat>)
    ensures r.Some? <==> s.fileOffset + s.position < l.total
    ensures r.Some? ==> r.value < TotalPieces(l)
  {
    var b := s.fileOffset + s.position;
    if b < l.total then
      PieceOfByte(l, b, 0);
      Some(PieceOf(l, b))
    else None
  }

  // ---- lookahead ----

  function WindowStart(s: StreamState): nat { s.fileOffset + s.position }

  function WindowEnd(s: StreamState): nat { Min(WindowStart(s) + PER_STREAM_BUF, s.fileOffset + s.fileLen) }

  function Ascending(lo: nat, hi: nat): (r: seq<nat>)
    ensures |r| == Max(0, hi - lo) && forall k :: 0 <= k < |r| ==> r[k] == lo + k
  {
    seq(Max(0, hi - lo), k requires k >= 0 => lo + k)
  }

  /** The pieces of the lookahead window in order, as far as the torrent goes. */
  function Queue(l: Lengths, s: StreamState): seq<nat> {
    Ascending(WindowStart(s) / l.pieceLen, Min(CeilDiv(WindowEnd(s), l.pieceLen), TotalPieces(l)))
  }

  /** The queue is exactly the pieces meeting the next 32 MiB of the file from the position on; at the
      end of the file it is the one piece around the file's end, if that end is inside one. */
  lemma QueueCoversWindow(l: Lengths, s: StreamState, p: nat)
    requires Inside(l, s)
    ensures var lo, eof := s.fileOffset + s.position, s.fileOffset + s.fileLen;
            p in Queue(l, s) <==>
              || (s.position < s.fileLen && p * l.pieceLen < lo + 33554432 && p * l.pieceLen < eof && lo < (p + 1) * l.pieceLen)
              || (s.position == s.fileLen && eof % l.pieceLen != 0 && p == eof / l.pieceLen)
  {
    var lo, hi := WindowStart(s), WindowEnd(s);
    CeilDivMonotone(hi, l.total, l.pieceLen);
    if s.position < s.fileLen {
      BlocksMeeting(lo, hi, l.pieceLen, p);
    } else {
      BlocksAtPoint(lo, l.pieceLen, p);
    }
    var q := Queue(l, s);
    if lo / l.pieceLen <= p < CeilDiv(hi, l.pieceLen) {
      assert q[p - lo / l.pieceLen] == p;
    }
  }

  /** The queue rises by one from piece to piece; before the end of the file it starts with the piece
      the reader is waiting for. */
  lemma QueueRises(l: Lengths, s: StreamState)
    requires Inside(l, s)
    ensures forall k :: 0 <= k < |Queue(l, s)| - 1 ==> Queue(l, s)[k + 1] == Queue(l, s)[k] + 1
    ensures s.position < s.fileLen ==>
              Queue(l, s) != [] && Queue(l, s)[0] == PieceOf(l, s.fileOffset + s.position)
              && CurrentPiece(l, s) == Some(Queue(l, s)[0])
  {
    if s.position < s.fileLen {
      var lo := s.fileOffset + s.position;
      PieceOfByte(l, lo, PieceOf(l, lo));
      DivBlock(lo, l.pieceLen, PieceOf(l, lo));
      StepProduct(PieceOf(l, lo), l.pieceLen);
      QueueCoversWindow(l, s, PieceOf(l, lo));
    }
  }

  function Queues(l: Lengths, streams: seq<StreamState>): (r: seq<seq<nat>>)
    ensures |r| == |streams| && forall i :: 0 <= i < |r| ==> r[i] == Queue(l, streams[i])
  {
    if streams == [] then [] else [Queue(l, streams[0])] + Queues(l, streams[1..])
  }

  /** The piece every stream is reading, in their order. */
  function Currents(l: Lengths, streams: seq<StreamState>): (r: seq<nat>)
    ensures |r| == |streams| && forall i :: 0 <= i < |r| ==> r[i] == PieceOf(l, streams[i].fileOffset + streams[i].position)
  {
    if streams == [] then []
    else [PieceOf(l, streams[0].fileOffset + streams[0].position)] + Currents(l, streams[1..])
  }

  /** The interleaving asks for the pieces that readers are waiting for before any other. */
  lemma CurrentPiecesFirst(l: Lengths, streams: seq<StreamState>)
    requires forall i :: 0 <= i < |streams| ==> Inside(l, streams[i]) && streams[i].position < streams[i].fileLen
    ensures Drained(Queues(l, streams)) == Currents(l, streams) + Drained(Tails(Queues(l, streams)))
  {
    FirstRowIsCurrent(l, streams);
    FirstTurn(Queues(l, streams));
  }

  lemma {:induction false} FirstRowIsCurrent(l: Lengths, streams: seq<StreamState>)
    requires forall i :: 0 <= i < |streams| ==> Inside(l, streams[i]) && streams[i].position < streams[i].fileLen
    ensures Row(Queues(l, streams), 0) == Currents(l, streams)
  {
    if streams != [] {
      QueueRises(l, streams[0]);
      FirstRowIsCurrent(l, streams[1..]);
      assert Queues(l, streams)[1..] == Queues(l, streams[1..]);
    }
  }

  // ---- round robin ----

  function TotalLen(qs: seq<seq<nat>>): nat {
    if qs == [] then 0 else |qs[0]| + TotalLen(qs[1..])
  }

  lemma {:induction false} TotalLenConcat(a: seq<seq<nat>>, b: seq<seq<nat>>)
    ensures TotalLen(a + b) == TotalLen(a) + TotalLen(b)
  {
    if a == [] {
      assert a + b == b;
    } else {
      TotalLenConcat(a[1..], b);
      assert (a + b)[1..] == a[1..] + b;
    }
  }

  /** Everything the interleaving iterator yields from queues `qs`. */
  ghost function Drained(qs: seq<seq<nat>>): seq<nat>
    decreases TotalLen(qs), |qs|
  {
    if qs == [] then []
    else if qs[0] == [] then Drained(qs[1..])
    else
      TotalLenConcat(qs[1..], [qs[0][1..]]);
      [qs[0][0]] + Drained(qs[1..] + [qs[0][1..]])
  }

  /** The queues visited in turn; each visit takes one piece and moves the queue to the back. */
  class Interleave {
    var all: seq<seq<nat>>

    constructor (qs: seq<seq<nat>>)
      ensures all == qs
    {
      all := qs;
    }

    method Next() returns (r: Option<nat>)
      modifies this
      ensures r.None? ==> Drained(old(all)) == [] && all == []
      ensures r.Some? ==> Drained(old(all)) == [r.value] + Drained(all) && TotalLen(all) < TotalLen(old(all))
    {
      while all != []
        invariant Drained(all) == Drained(old(all)) && TotalLen(all) == TotalLen(old(all))
        decreases |all|
      {
        var it := all[0];
        TotalLenConcat(all[1..], [it[Min(1, |it|)..]]);
        all := all[1..];
        if it != [] {
          all := all + [it[1..]];
          return Some(it[0]);
        }
      }
      return None;
    }

    /** Runs the iterator to its end. */
    method Drain() returns (out: seq<nat>)
      modifies this
      ensures out == Rows(old(all), 0, MaxLen(old(all)))
    {
      DrainedIsRows(all);
      ghost var qs := all;
      out := [];
      var done := false;
      while !done
        invariant Drained(qs) == out + (if done then [] else Drained(all))
        decreases !done, TotalLen(all)
      {
        var r := Next();
        if r.None? {
          done := true;
        } else {
          out := out + [r.value];
        }
      }
    }
  }

  /** The `r`-th pieces of all queues that have one, in queue order. */
  function Row(qs: seq<seq<nat>>, r: nat): seq<nat> {
    if qs == [] then []
    else if r < |qs[0]| then [qs[0][r]] + Row(qs[1..], r)
    else Row(qs[1..], r)
  }

  /** All `lo`-th pieces, then all next ones, and so on up to row `hi`. */
  function Rows(qs: seq<seq<nat>>, lo: nat, hi: nat): seq<nat>
    decreases hi - lo
  {
    if lo >= hi then [] else Row(qs, lo) + Rows(qs, lo + 1, hi)
  }

  function MaxLen(qs: seq<seq<nat>>): nat {
    if qs == [] then 0 else Max(|qs[0]|, MaxLen(qs[1..]))
  }

  /** The queues without their first pieces; finished ones are gone. */
  function Tails(qs: seq<seq<nat>>): seq<seq<nat>> {
    if qs == [] then []
    else if qs[0] == [] then Tails(qs[1..])
    else [qs[0][1..]] + Tails(qs[1..])
  }

  /** One turn around the queues of `a`, the queues of `b` having had theirs. */
  lemma {:induction false} OneTurn(a: seq<seq<nat>>, b: seq<seq<nat>>)
    ensures Drained(a + b) == Row(a, 0) + Drained(b + Tails(a))
    decreases |a|
  {
    if a == [] {
      assert a + b == b && b + Tails(a) == b;
    } else {
      var c := if a[0] == [] then [] else [a[0][1..]];
      assert (a + b)[1..] == a[1..] + b;
      assert (a[1..] + b) + c == a[1..] + (b + c);
      OneTurn(a[1..], b + c);
      assert (b + c) + Tails(a[1..]) == b + Tails(a);
      assert a[0] == [] ==> b + c == b;
    }
  }

  lemma FirstTurn(qs: seq<seq<nat>>)
    ensures Drained(qs) == Row(qs, 0) + Drained(Tails(qs))
  {
    OneTurn(qs, []);
    assert qs + [] == qs && [] + Tails(qs) == Tails(qs);
  }

  lemma {:induction false} RowOfTails(qs: seq<seq<nat>>, r: nat)
    ensures Row(Tails(qs), r) == Row(qs, r + 1)
  {
    if qs != [] {
      RowOfTails(qs[1..], r);
      if qs[0] != [] {
        assert Tails(qs)[0] == qs[0][1..] && Tails(qs)[1..] == Tails(qs[1..]);
      }
    }
  }

  lemma {:induction false} RowsOfTails(qs: seq<seq<nat>>, lo: nat, hi: nat)
    requires lo <= hi
    ensures Rows(Tails(qs), lo, hi) == Rows(qs, lo + 1, hi + 1)
    decreases hi - lo
  {
    if lo < hi {
      RowOfTails(qs, lo);
      RowsOfTails(qs, lo + 1, hi);
    }
  }

  lemma {:induction false} TailsShorter(qs: seq<seq<nat>>)
    ensures MaxLen(Tails(qs)) == Max(0, MaxLen(qs) - 1)
    ensures |Tails(qs)| <= |qs| && TotalLen(Tails(qs)) <= TotalLen(qs)
    ensures MaxLen(qs) > 0 ==> TotalLen(Tails(qs)) < TotalLen(qs)
    ensures MaxLen(qs) == 0 ==> Tails(qs) == []
  {
    if qs != [] {
      TailsShorter(qs[1..]);
      if qs[0] != [] {
        assert Tails(qs)[0] == qs[0][1..] && Tails(qs)[1..] == Tails(qs[1..]);
      }
    }
  }

  /** The interleaving is round robin: all first pieces, then all second pieces, and so on. */
  lemma {:induction false} DrainedIsRows(qs: seq<seq<nat>>)
    ensures Drained(qs) == Rows(qs, 0, MaxLen(qs))
    decreases TotalLen(qs), |qs|
  {
    if qs != [] {
      FirstTurn(qs);
      TailsShorter(qs);
      if MaxLen(qs) == 0 {
        RowEmpty(qs);
      } else {
        DrainedIsRows(Tails(qs));
        RowsOfTails(qs, 0, MaxLen(qs) - 1);
        assert Rows(qs, 0, MaxLen(qs)) == Row(qs, 0) + Rows(qs, 1, MaxLen(qs));
      }
    }
  }

  lemma {:induction false} RowEmpty(qs: seq<seq<nat>>)
    requires MaxLen(qs) == 0
    ensures Row(qs, 0) == []
  {
    if qs != [] { RowEmpty(qs[1..]); }
  }

  /** How often piece `p` occurs in all the queues together. */
  function Occurrences(qs: seq<seq<nat>>, p: nat): nat {
    if qs == [] then 0 else multiset(qs[0])[p] + Occurrences(qs[1..], p)
  }

  lemma {:induction false} OccurrencesConcat(a: seq<seq<nat>>, b: seq<seq<nat>>, p: nat)
    ensures Occurrences(a + b, p) == Occurrences(a, p) + Occurrences(b, p)
  {
    if a == [] {
      assert a + b == b;
    } else {
      OccurrencesConcat(a[1..], b, p);
      assert (a + b)[0] == a[0] && (a + b)[1..] == a[1..] + b;
    }
  }

  lemma TakenFromFront(q: seq<nat>, others: seq<seq<nat>>, p: nat)
    requires q != []
    ensures Occurrences(others + [q[1..]], p) + (if p == q[0] then 1 else 0) == multiset(q)[p] + Occurrences(others, p)
  {
    var left := [q[1..]];
    OccurrencesConcat(others, left, p);
    assert left[1..] == [] && Occurrences(left, p) == multiset(q[1..])[p];
    FrontCounted(q[0], q[1..], p);
    assert q == [q[0]] + q[1..];
  }

  /** Nothing is dropped and nothing repeated. */
  lemma {:induction false} DrainedKeepsAll(qs: seq<seq<nat>>, p: nat)
    ensures multiset(Drained(qs))[p] == Occurrences(qs, p)
    decreases TotalLen(qs), |qs|
  {
    if qs != [] {
      if qs[0] == [] {
        DrainedKeepsAll(qs[1..], p);
      } else {
        var first, left, others := qs[0][0], [qs[0][1..]], qs[1..];
        TotalLenConcat(others, left);
        DrainedKeepsAll(others + left, p);
        TakenFromFront(qs[0], others, p);
        FrontCounted(first, Drained(others + left), p);
      }
    }
  }

  lemma FrontCounted(first: nat, rest: seq<nat>, p: nat)
    ensures multiset([first] + rest)[p] == multiset(rest)[p] + (if p == first then 1 else 0)
  {
  }

  // ---- the registry and reading ----

  class TorrentStreams {
    var streams: map<nat, StreamState>

    constructor ()
      ensures streams == map[]
    {
      streams := map[];
    }

    method RegisterWaker(id: nat)
      modifies this
      ensures streams == if id in old(streams) then old(streams)[id := old(streams)[id].(waker := true)] else old(streams)
    {
      if id in streams {
        streams := streams[id := streams[id].(waker := true)];
      }
    }

    /** Wakes, and forgets the waker of, exactly the streams waiting at piece `p`. */
    method WakeStreamsOnPieceCompleted(l: Lengths, p: nat) returns (woken: set<nat>)
      modifies this
      ensures woken == Waiting(l, old(streams), p) && streams == Woken(l, old(streams), p)
      ensures forall id :: id in woken <==>
                && id in old(streams) && old(streams)[id].waker
                && old(streams)[id].fileOffset + old(streams)[id].position < l.total
                && PieceOf(l, old(streams)[id].fileOffset + old(streams)[id].position) == p
      ensures streams.Keys == old(streams).Keys && forall id :: id in streams ==>
                streams[id] == old(streams)[id].(waker := old(streams)[id].waker && id !in woken)
    {
      woken := {};
      ghost var s0 := streams;
      var todo := streams.Keys;
      ghost var done: set<nat> := {};
      while todo != {}
        invariant done + todo == s0.Keys == streams.Keys && done !! todo
        invariant woken == Waiting(l, s0, p) * done
        invariant forall id :: id in s0 ==> streams[id] == (if id in done then Woken(l, s0, p)[id] else s0[id])
        decreases todo
      {
        var id :| id in todo;
        if CurrentPiece(l, streams[id]) == Some(p) && streams[id].waker {
          streams := streams[id := streams[id].(waker := false)];
          woken := woken + {id};
        }
        done, todo := done + {id}, todo - {id};
      }
      assert done == s0.Keys;
      assert Waiting(l, s0, p) * done == Waiting(l, s0, p);
    }
  }

  function Waiting(l: Lengths, streams: map<nat, StreamState>, p: nat): set<nat> {
    set id | id in streams && CurrentPiece(l, streams[id]) == Some(p) && streams[id].waker
  }

  function Woken(l: Lengths, streams: map<nat, StreamState>, p: nat): map<nat, StreamState> {
    map id | id in streams :: if id in Waiting(l, streams, p) then streams[id].(waker := false) else streams[id]
  }

  datatype Poll = Ready(bytes: seq<byte>) | Pending | IoError

  const I64_MAX: int := 0x7fff_ffff_ffff_ffff

  type i64 = x: int | -I64_MAX - 1 <= x <= I64_MAX

  datatype SeekFrom = Start(s: nat) | End(e: i64) | Current(o: i64)

  /** Addition on 64-bit integers, which wraps. */
  function WrappingAdd(a: i64, b: i64): i64 {
    if a + b > I64_MAX then a + b - 2 * (I64_MAX + 1)
    else if a + b < -I64_MAX - 1 then a + b + 2 * (I64_MAX + 1)
    else a + b
  }

  class FileStream {
    const streams: TorrentStreams
    const id: nat
    const fileLen: nat
    const fileOffset: nat
    var position: nat

    /** The position is inside the file, and the registry has the same one. */
    ghost predicate Valid(l: Lengths)
      reads this, streams
    {
      && id in streams.streams
      && streams.streams[id].position == position
      && streams.streams[id].fileLen == fileLen && streams.streams[id].fileOffset == fileOffset
      && Inside(l, streams.streams[id])
    }

    constructor (streams: TorrentStreams, id: nat, fileLen: nat, fileOffset: nat, ghost l: Lengths)
      requires fileOffset + fileLen <= l.total
      modifies streams
      ensures Valid(l) && position == 0
      ensures this.streams == streams && this.id == id && this.fileLen == fileLen && this.fileOffset == fileOffset
      ensures streams.streams == old(streams.streams)[id := StreamState(fileLen, fileOffset, 0, false)]
    {
      this.streams, this.id, this.fileLen, this.fileOffset := streams, id, fileLen, fileOffset;
      position := 0;
      new;
      streams.streams := streams.streams[id := StreamState(fileLen, fileOffset, 0, false)];
    }

    method SetPosition(l: Lengths, newPos: nat)
      requires Valid(l) && newPos <= fileLen
      modifies this`position, streams
      ensures Valid(l) && position == newPos
      ensures streams.streams == old(streams.streams)[id := old(streams.streams)[id].(position := newPos)]
    {
      position := newPos;
      streams.streams := streams.streams[id := streams.streams[id].(position := newPos)];
    }

    /** At the end of the file: nothing. On a missing piece: wait for it. Otherwise some bytes of
        the file from the position on, all of one had piece. `file` is what storage holds. */
    method PollRead(l: Lengths, have: seq<bool>, file: seq<byte>, bufLen: nat) returns (r: Poll)
      requires Valid(l) && |have| >= TotalPieces(l)
      modifies this`position, streams
      ensures Valid(l)
      ensures streams.streams == old(streams.streams)[id :=
                if r.Pending? then old(streams.streams)[id].(waker := true) else old(streams.streams)[id].(position := position)]
      ensures r.Pending? <==> old(position) < fileLen && !HadByte(l, have, fileOffset + old(position))
      ensures r.Pending? ==> position == old(position) && streams.streams[id].waker
      ensures r.IoError? ==> position == old(position)
      ensures r.IoError? <==>
                var b := fileOffset + old(position);
                var n := Min(Min(bufLen, PieceEnd(l, PieceOf(l, b)) - b), fileLen - old(position));
                old(position) < fileLen && HadByte(l, have, b) && n > 0 && old(position) + n > |file|
      ensures r.Ready? ==> ReadOk(l, have, file, old(position), position, r.bytes)
      ensures r.Ready? && old(position) == fileLen ==> r.bytes == []
      ensures r.Ready? && old(position) < fileLen ==>
                var b := fileOffset + old(position);
                |r.bytes| == Min(Min(bufLen, PieceEnd(l, PieceOf(l, b)) - b), fileLen - old(position))
    {
      if position == fileLen {
        return Ready([]);
      }
      var b := fileOffset + position;
      var current := CurrentPiece(l, streams.streams[id]);
      PieceOfByte(l, b, PieceOf(l, b));
      if current.None? {
        return IoError;
      }
      if !have[current.value] {
        streams.RegisterWaker(id);
        return Pending;
      }
      var n: nat := Min(Min(bufLen, PieceEnd(l, current.value) - b), fileLen - position);
      if n > 0 && position + n > |file| {
        return IoError;
      }
      var bytes := if n == 0 then [] else file[position..position + n];
      forall c | b <= c < b + n ensures HadByte(l, have, c) {
        PieceOfByte(l, c, current.value);
      }
      SetPosition(l, position + n);
      return Ready(bytes);
    }

    /** `bytes` are the file's bytes from one position to the next, all in had pieces. */
    ghost predicate ReadOk(l: Lengths, have: seq<bool>, file: seq<byte>, from: nat, to: nat, bytes: seq<byte>) {
      && |bytes| == to - from
      && (bytes != [] ==> to <= |file| && bytes == file[from..to])
      && forall b: nat :: fileOffset + from <= b < fileOffset + to ==> HadByte(l, have, b)
    }

    /** Reading on with any buffer sizes returns the rest of the file, once its pieces are had. */
    method ReadToEnd(l: Lengths, have: seq<bool>, file: seq<byte>) returns (data: seq<byte>)
      requires Valid(l) && |have| >= TotalPieces(l) && |file| == fileLen
      requires forall b: nat :: fileOffset + position <= b < fileOffset + fileLen ==> HadByte(l, have, b)
      modifies this`position, streams
      ensures Valid(l) && position == fileLen && data == file[old(position)..]
    {
      data := [];
      ghost var from := position;
      while position < fileLen
        invariant Valid(l) && from <= position && data == file[from..position]
        decreases fileLen - position
      {
        var bufLen: nat :| bufLen > 0;
        var r := PollRead(l, have, file, bufLen);
        data := data + r.bytes;
      }
    }

    /** Moves to the target if it is inside the file, else changes nothing. The additions can wrap,
        but only to a negative position, which is refused like the true one. */
    method StartSeek(l: Lengths, to: SeekFrom) returns (ok: bool)
      requires Valid(l)
      modifies this`position, streams
      ensures Valid(l)
      ensures var target := match to case Start(s) => s case End(e) => fileLen + e case Current(o) => old(position) + o;
              && (ok <==> fileLen <= I64_MAX && 0 <= target <= fileLen)
              && position == if ok then target else old(position)
      ensures streams.streams == old(streams.streams)[id := old(streams.streams)[id].(position := position)]
    {
      if fileLen > I64_MAX {
        return false;
      }
      if to.Start? && to.s > I64_MAX {
        return false;
      }
      var newPos: i64;
      match to {
        case Start(s) => newPos := s;
        case End(e) => newPos := WrappingAdd(fileLen, e);
        case Current(o) => newPos := WrappingAdd(position, o);
      }
      if newPos < 0 || newPos > fileLen {
        return false;
      }
      SetPosition(l, newPos);
      return true;
    }

  }

  /** Byte `b` of the torrent lies in a had piece. */
  predicate HadByte(l: Lengths, have: seq<bool>, b: nat) {
    b < l.total && PieceOf(l, b) < |have| && have[PieceOf(l, b)]
  }
}
