/** Torrent metadata sent in pieces and put together again (section "extension message" of BEP 9). */
module MetadataExchange {
  import opened Lengths
  import opened FlatStorage
  import opened FileOps
  import opened Outcomes

  const MAX_METADATA: nat := 32 * 1024 * 1024

  const U32: nat := 0x1_0000_0000

  /** Sending: the piece, a refusal, or a slice out of bounds, which ends the task. */
  datatype Sent = Data(bytes: seq<byte>) | Refused | OutOfBounds

  function MetadataPieces(size: nat): nat { CeilDiv(size, CHUNK_SIZE) }

  /** The bytes `lo..hi` of `data`, if that is a valid range. */
  function Slice(data: seq<byte>, lo: nat, hi: nat): Sent {
    if lo <= hi <= |data| then Data(data[lo..hi]) else OutOfBounds
  }

  /** Offsets are 32-bit and wrap; metadata of 2^32 bytes or more is refused. */
  function SendMetadataPiece(info: seq<byte>, id: nat): (r: Sent)
  {
    if info == [] || id > MetadataPieces(|info|) || |info| >= U32 then Refused
    else
      var offset := id * CHUNK_SIZE % U32;
      Slice(info, offset, Min((offset + CHUNK_SIZE) % U32, |info|))
  }

  /** The last piece whose end does not wrap is the one before this. */
  const WRAPS: nat := U32 / CHUNK_SIZE - 1

  /** What every request is answered, for metadata of any size. An existing piece is served, except
      the one whose end would be 2^32. The piece after the last is empty if the size fills whole
      pieces, and out of bounds otherwise; one past 2^32 wraps around to the first. */
  lemma ServedIff(info: seq<byte>, id: nat)
    requires info != [] && id < U32
    ensures var n, r := MetadataPieces(|info|), SendMetadataPiece(info, id);
            && (|info| >= U32 || id > n ==> r == Refused)
            && (|info| < U32 && id < n && id < WRAPS ==>
                  r == Data(info[id * CHUNK_SIZE..Min(id * CHUNK_SIZE + CHUNK_SIZE, |info|)]))
            && (|info| < U32 && id == n && id < WRAPS ==> r == if |info| % CHUNK_SIZE == 0 then Data([]) else OutOfBounds)
            && (|info| < U32 && id == WRAPS <= n ==> r == OutOfBounds)
            && (|info| < U32 && WRAPS < id <= n ==> id == n && r == Data(info[..CHUNK_SIZE]))
  {
    var n := MetadataPieces(|info|);
    if |info| < U32 && id <= n {
      PieceBounds(|info|, id);
      if id == n && id < WRAPS && |info| % CHUNK_SIZE == 0 { assert info[|info|..|info|] == []; }
    }
  }

  lemma PieceBounds(size: nat, id: nat)
    requires 0 < size < U32 && id <= MetadataPieces(size)
    ensures id <= WRAPS + 1
    ensures id < WRAPS ==> id * CHUNK_SIZE % U32 == id * CHUNK_SIZE && (id * CHUNK_SIZE + CHUNK_SIZE) % U32 == id * CHUNK_SIZE + CHUNK_SIZE
    ensures id == WRAPS ==> id * CHUNK_SIZE % U32 == U32 - CHUNK_SIZE && (id * CHUNK_SIZE + CHUNK_SIZE) % U32 == 0
    ensures id == WRAPS + 1 ==> id * CHUNK_SIZE % U32 == 0 && id == MetadataPieces(size) && size > CHUNK_SIZE
    ensures id < MetadataPieces(size) ==> id * CHUNK_SIZE < size
    ensures id == MetadataPieces(size) ==> id * CHUNK_SIZE >= size && (id * CHUNK_SIZE == size <==> size % CHUNK_SIZE == 0)
  {
  }

  // ---- receiving ----

  datatype Recorder = Recorder(size: nat, buffer: seq<byte>, received: seq<bool>)

  predicate WfRecorder(r: Recorder) {
    r.size <= MAX_METADATA && |r.buffer| == r.size && |r.received| == MetadataPieces(r.size)
  }

  function PieceSize(size: nat, index: nat): nat
    requires index < MetadataPieces(size)
  {
    if index == MetadataPieces(size) - 1 then LastElementSize(size, CHUNK_SIZE) else CHUNK_SIZE
  }

  /** The length of the last of the elements `total` is cut into. */
  function LastElementSize(total: nat, each: nat): nat
    requires each > 0
  {
    if total % each == 0 then each else total % each
  }

  lemma PieceFits(size: nat, index: nat)
    requires index < MetadataPieces(size)
    ensures index * CHUNK_SIZE + PieceSize(size, index) == Min(index * CHUNK_SIZE + CHUNK_SIZE, size)
  {
  }

  /** The recorder with piece `index` copied in. */
  function Store(r: Recorder, index: nat, data: seq<byte>): (r': Recorder)
    requires WfRecorder(r) && index < MetadataPieces(r.size) && |data| == PieceSize(r.size, index)
    ensures WfRecorder(r')
  {
    PieceFits(r.size, index);
    var lo := index * CHUNK_SIZE;
    r.(buffer := r.buffer[..lo] + data + r.buffer[lo + |data|..], received := r.received[index := true])
  }

  predicate Acceptable(r: Recorder, index: nat, data: seq<byte>)
    requires WfRecorder(r)
  {
    index < MetadataPieces(r.size) && |data| == PieceSize(r.size, index) && !r.received[index]
  }

  class HandlerLocked {
    const metadataSize: nat
    const buffer: array<byte>
    var received: seq<bool>

    ghost function View(): Recorder
      reads this, buffer
    {
      Recorder(metadataSize, buffer[..], received)
    }

    constructor Raw(size: nat)
      ensures fresh(buffer) && View() == Blank(size)
    {
      metadataSize := size;
      buffer := new byte[size](_ => 0);
      received := seq(MetadataPieces(size), _ => false);
      new;
      assert buffer[..] == Zeros(size);
    }

    static method New(size: nat) returns (r: Result<HandlerLocked>)
      requires size < U32
      ensures r.Ok? <==> size <= 33554432
      ensures r.Ok? ==> fresh(r.value) && fresh(r.value.buffer) && r.value.View() == Blank(size)
    {
      if size > MAX_METADATA {
        return Err("metadata size is too big");
      }
      var h := new HandlerLocked.Raw(size);
      return Ok(h);
    }

    /** Records one piece. It is refused if its index or length is wrong or it came before; the
        last one is answered true if the whole hashes to the expected digest, and is an error
        otherwise. */
    method RecordPiece(index: nat, data: seq<byte>, infoHash: Digest) returns (r: Result<bool>)
      requires WfRecorder(View()) && index < U32
      modifies this`received, buffer
      ensures WfRecorder(View())
      ensures index * 16384 >= metadataSize || old(received)[index] || |data| != Min(16384, metadataSize - index * 16384) ==>
                r.Err? && View() == old(View())
      ensures !Acceptable(old(View()), index, data) ==> r.Err? && View() == old(View())
      ensures Acceptable(old(View()), index, data) ==>
                && View() == Store(old(View()), index, data)
                && (r.Err? <==> AllReceived(View()) && infoHash != Sha1(buffer[..]))
                && (r.Ok? ==> (r.value <==> AllReceived(View())))
    {
      if index >= |received| {
        return Err("wrong index");
      }
      var offset := index * CHUNK_SIZE;
      var size := PieceSize(metadataSize, index);
      if |data| != size {
        return Err("unexpected length");
      }
      if received[index] {
        return Err("already received");
      }
      PieceFits(metadataSize, index);
      ghost var was := View();
      forall k | 0 <= k < size { buffer[offset + k] := data[k]; }
      received := received[index := true];
      assert buffer[..] == was.buffer[..offset] + data + was.buffer[offset + size..];
      if forall k :: 0 <= k < |received| ==> received[k] {
        if Sha1(buffer[..]) != infoHash {
          return Err("info checksum invalid");
        }
        return Ok(true);
      }
      return Ok(false);
    }
  }

  /** Nothing received yet. */
  function Blank(size: nat): Recorder {
    Recorder(size, Zeros(size), seq(MetadataPieces(size), _ => false))
  }

  predicate AllReceived(r: Recorder) { forall k :: 0 <= k < |r.received| ==> r.received[k] }

  // ---- round trip ----

  /** The received pieces of the buffer are those of `info`. */
  ghost predicate Agrees(r: Recorder, info: seq<byte>) {
    && WfRecorder(r) && r.size == |info|
    && forall b :: 0 <= b < |info| && r.received[b / CHUNK_SIZE] ==> r.buffer[b] == info[b]
  }

  function PieceOfInfo(info: seq<byte>, index: nat): (d: seq<byte>)
    requires index < MetadataPieces(|info|)
    ensures |d| == PieceSize(|info|, index)
  {
    PieceFits(|info|, index);
    info[index * CHUNK_SIZE..Min(index * CHUNK_SIZE + CHUNK_SIZE, |info|)]
  }

  lemma StoreAgrees(r: Recorder, info: seq<byte>, index: nat)
    requires Agrees(r, info) && index < MetadataPieces(|info|)
    ensures Agrees(Store(r, index, PieceOfInfo(info, index)), info)
  {
    var data := PieceOfInfo(info, index);
    var r' := Store(r, index, data);
    PieceFits(|info|, index);
    var lo := index * CHUNK_SIZE;
    forall b | 0 <= b < |info| && r'.received[b / CHUNK_SIZE] ensures r'.buffer[b] == info[b] {
      if lo <= b < lo + |data| {
        assert r'.buffer[b] == data[b - lo];
      } else {
        assert b / CHUNK_SIZE != index;
        assert r'.buffer[b] == r.buffer[b];
      }
    }
  }

  /** The recorder after the pieces of `info` arrived in `order`. */
  ghost function After(info: seq<byte>, order: seq<nat>): (r: Recorder)
    requires |info| <= MAX_METADATA && forall k :: 0 <= k < |order| ==> order[k] < MetadataPieces(|info|)
    ensures WfRecorder(r) && r.size == |info|
  {
    if order == [] then Blank(|info|)
    else
      var last := order[|order| - 1];
      Store(After(info, order[..|order| - 1]), last, PieceOfInfo(info, last))
  }

  lemma {:induction false} AfterAgrees(info: seq<byte>, order: seq<nat>)
    requires |info| <= MAX_METADATA && forall k :: 0 <= k < |order| ==> order[k] < MetadataPieces(|info|)
    ensures Agrees(After(info, order), info)
    ensures forall i: nat :: i < MetadataPieces(|info|) ==> (After(info, order).received[i] <==> i in order)
  {
    if order != [] {
      var short := order[..|order| - 1];
      AfterAgrees(info, short);
      StoreAgrees(After(info, short), info, order[|order| - 1]);
      assert order == short + [order[|order| - 1]];
    }
  }

  /** The pieces one side sends, recorded by the other in any order without repetition: each is
      accepted, the answer is true exactly when all pieces are there, and then the buffer is the
      original, so the checksum holds. */
  lemma AnyOrderRebuilds(info: seq<byte>, order: seq<nat>, next: nat)
    requires info != [] && |info| <= MAX_METADATA && next < MetadataPieces(|info|) && next !in order
    requires forall k :: 0 <= k < |order| ==> order[k] < MetadataPieces(|info|)
    ensures SendMetadataPiece(info, next) == Data(PieceOfInfo(info, next))
    ensures Acceptable(After(info, order), next, PieceOfInfo(info, next))
    ensures var r := After(info, order + [next]);
            && r == Store(After(info, order), next, PieceOfInfo(info, next))
            && (AllReceived(r) <==> forall i: nat :: i < MetadataPieces(|info|) ==> i in order + [next])
            && (AllReceived(r) ==> r.buffer == info)
  {
    ServedIff(info, next);
    var full := order + [next];
    assert full[..|full| - 1] == order;
    AfterAgrees(info, order);
    AfterAgrees(info, full);
    var r := After(info, full);
    if AllReceived(r) {
      forall b | 0 <= b < |info| ensures r.buffer[b] == info[b] {
        assert b / CHUNK_SIZE < |r.received|;
      }
    }
    if forall i: nat :: i < MetadataPieces(|info|) ==> i in full {
      forall k | 0 <= k < |r.received| ensures r.received[k] { assert k in full; }
    }
  }

  /** A piece that came before is refused, whatever it holds. */
  lemma RepeatsRefused(info: seq<byte>, order: seq<nat>, again: nat, data: seq<byte>)
    requires |info| <= MAX_METADATA && forall k :: 0 <= k < |order| ==> order[k] < MetadataPieces(|info|)
    requires again in order
    ensures !Acceptable(After(info, order), again, data)
  {
    AfterAgrees(info, order);
  }
}
