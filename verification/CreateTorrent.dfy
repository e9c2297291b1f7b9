/** Making a torrent: hashing files read in arbitrary short reads, piece by piece. */
module CreateTorrent {
  import opened Lengths
  import opened FileLayout
  import opened FlatStorage
  import opened FileOps
  import opened Outcomes

  const READ_SIZE: nat := 8192

  /** The first `n` input files end to end. */
  function Joined(input: seq<seq<byte>>, n: nat): seq<byte>
    requires n <= |input|
  {
    if n == 0 then [] else Joined(input, n - 1) + input[n - 1]
  }

  function AllBytes(input: seq<seq<byte>>): seq<byte> { Joined(input, |input|) }

  /** `hashes` are the digests of the first `|hashes|` full pieces of `data`, and `rest` is what
      follows them. */
  ghost predicate Hashed(data: seq<byte>, pl: nat, hashes: seq<Digest>, rest: seq<byte>) {
    && |hashes| * pl + |rest| == |data|
    && rest == data[|hashes| * pl..]
    && forall k :: 0 <= k < |hashes| ==> IsPieceHash(data, pl, k, hashes[k])
  }

  ghost predicate IsPieceHash(data: seq<byte>, pl: nat, k: nat, d: Digest) {
    k * pl + pl <= |data| && d == Sha1(data[k * pl..k * pl + pl])
  }

  /** The hashing loop after reading `data`: `checksum` has been fed the bytes of the current piece,
      which has `remaining` more to come. Pieces of length zero are never filled. */
  ghost predicate Underway(data: seq<byte>, pl: nat, remaining: nat, checksum: seq<byte>, hashes: seq<Digest>) {
    if pl == 0 then remaining == 0 else 0 < remaining == pl - |checksum| && Hashed(data, pl, hashes, checksum)
  }

  /** Reading on keeps the finished hashes. */
  lemma HashedMore(data: seq<byte>, pl: nat, hashes: seq<Digest>, rest: seq<byte>, block: seq<byte>)
    requires Hashed(data, pl, hashes, rest)
    ensures Hashed(data + block, pl, hashes, rest + block)
  {
    forall k | 0 <= k < |hashes| ensures IsPieceHash(data + block, pl, k, hashes[k]) {
      assert IsPieceHash(data, pl, k, hashes[k]);
      assert (data + block)[k * pl..k * pl + pl] == data[k * pl..k * pl + pl];
    }
  }

  /** A full piece is finished. */
  lemma HashedPiece(data: seq<byte>, pl: nat, hashes: seq<Digest>, rest: seq<byte>)
    requires Hashed(data, pl, hashes, rest) && |rest| == pl
    ensures Hashed(data, pl, hashes + [Sha1(rest)], [])
  {
    StepProduct(|hashes|, pl);
    assert data[|hashes| * pl..|hashes| * pl + pl] == rest;
    assert IsPieceHash(data, pl, |hashes|, Sha1(rest));
  }

  /** Any read returns between one byte and what was asked for, or nothing at the end. */
  method Read(file: seq<byte>, at: nat, max: nat) returns (block: seq<byte>)
    requires at <= |file|
    ensures |block| <= max && at + |block| <= |file| && block == file[at..at + |block|]
    ensures block == [] <==> max == 0 || at == |file|
  {
    var most := Min(max, |file| - at);
    var size: nat :| size <= most && (size == 0 ==> most == 0);
    block := file[at..at + size];
  }

  /** The hashes are those of the full pieces of all files joined, then one of what is left,
      which is taken exactly when the last file is not empty. */
  method CreateTorrentRaw(input: seq<seq<byte>>, pl: nat) returns (hashes: seq<Digest>, lens: seq<nat>)
    ensures |lens| == |input|
    ensures pl == 0 ==> hashes == []
    ensures pl > 0 ==> forall i :: 0 <= i < |input| ==> lens[i] == |input[i]|
    ensures pl > 0 ==> PieceHashes(AllBytes(input), pl, hashes, LastNonEmpty(input))
  {
    var length, remaining, checksum;
    length, remaining, checksum, hashes, lens := HashFiles(input, pl);
    if pl > 0 { HashingEnds(AllBytes(input), pl, remaining, checksum, hashes); }
    if remaining > 0 && length > 0 {
      hashes := hashes + [Sha1(checksum)];
    }
  }

  /** The loop over all files; `length` is that of the last one. */
  method HashFiles(input: seq<seq<byte>>, pl: nat)
    returns (length: nat, remaining: nat, checksum: seq<byte>, hashes: seq<Digest>, lens: seq<nat>)
    ensures |lens| == |input| && (pl == 0 ==> hashes == [])
    ensures pl > 0 ==> forall i :: 0 <= i < |input| ==> lens[i] == |input[i]|
    ensures pl > 0 ==> (length > 0 <==> LastNonEmpty(input))
    ensures Underway(AllBytes(input), pl, remaining, checksum, hashes)
  {
    length, remaining, checksum, hashes, lens := 0, pl, [], [], [];
    HashingBegins(pl);
    ghost var data: seq<byte> := [];
    var i := 0;
    while i < |input|
      invariant 0 <= i <= |input| && |lens| == i
      invariant pl == 0 ==> hashes == []
      invariant data == Joined(input, i) && Underway(data, pl, remaining, checksum, hashes)
      invariant pl > 0 ==> forall j :: 0 <= j < i ==> lens[j] == |input[j]|
      invariant pl > 0 ==> length == if i == 0 then 0 else |input[i - 1]|
    {
      length, remaining, checksum, hashes := HashFile(input, i, pl, remaining, checksum, hashes);
      lens := lens + [length];
      i := i + 1;
      data := Joined(input, i);
    }
  }

  predicate LastNonEmpty(input: seq<seq<byte>>) { input != [] && input[|input| - 1] != [] }

  /** The digests of all full pieces of `data`, and of what is left over them if `withTail`. */
  ghost predicate PieceHashes(data: seq<byte>, pl: nat, hashes: seq<Digest>, withTail: bool) {
    exists full, rest :: Hashed(data, pl, full, rest) && |rest| < pl
      && hashes == if withTail then full + [Sha1(rest)] else full
  }

  lemma HashingBegins(pl: nat)
    ensures Underway([], pl, pl, [], [])
  {
  }

  lemma HashingEnds(data: seq<byte>, pl: nat, remaining: nat, checksum: seq<byte>, hashes: seq<Digest>)
    requires pl > 0 && Underway(data, pl, remaining, checksum, hashes)
    ensures PieceHashes(data, pl, hashes, false) && PieceHashes(data, pl, hashes + [Sha1(checksum)], true)
  {
  }

  /** Reads one file to its end, finishing pieces on the way. */
  method HashFile(input: seq<seq<byte>>, i: nat, pl: nat, remaining0: nat, checksum0: seq<byte>, hashes0: seq<Digest>)
    returns (length: nat, remaining: nat, checksum: seq<byte>, hashes: seq<Digest>)
    requires i < |input| && Underway(Joined(input, i), pl, remaining0, checksum0, hashes0)
    ensures if pl == 0 then hashes == hashes0 else length == |input[i]|
    ensures Underway(Joined(input, i + 1), pl, remaining, checksum, hashes)
  {
    length, remaining, checksum, hashes := 0, remaining0, checksum0, hashes0;
    assert Joined(input, i) + input[i][..0] == Joined(input, i);
    while true
      invariant length <= |input[i]|
      invariant pl == 0 ==> hashes == hashes0
      invariant Underway(Joined(input, i) + input[i][..length], pl, remaining, checksum, hashes)
      decreases |input[i]| - length
    {
      var block := Read(input[i], length, Min(remaining, READ_SIZE));
      if block == [] {
        assert pl > 0 ==> input[i][..length] == input[i];
        return;
      }
      HashedMore(Joined(input, i) + input[i][..length], pl, hashes, checksum, block);
      assert Joined(input, i) + input[i][..length] + block == Joined(input, i) + input[i][..length + |block|];
      length := length + |block|;
      checksum := checksum + block;
      remaining := remaining - |block|;
      if remaining == 0 {
        HashedPiece(Joined(input, i) + input[i][..length], pl, hashes, checksum);
        remaining := pl;
        hashes := hashes + [Sha1(checksum)];
        checksum := [];
      }
    }
  }

  // ---- round trip with the initial check ----

  function FilesOf(input: seq<seq<byte>>): seq<File> {
    seq(|input|, i requires 0 <= i < |input| => File(|input[i]|, false))
  }

  lemma WholeFile(input: seq<seq<byte>>, i: nat)
    requires i < |input|
    ensures FileBytes(FilesOf(input), input, i) == input[i]
  {
  }

  lemma {:induction false} JoinedIsFlat(input: seq<seq<byte>>, n: nat)
    requires n <= |input|
    ensures Joined(input, n) == Flat(FilesOf(input), input, n)
  {
    if n > 0 {
      JoinedIsFlat(input, n - 1);
      WholeFile(input, n - 1);
      assert Flat(FilesOf(input), input, n) == Flat(FilesOf(input), input, n - 1) + input[n - 1];
    }
  }

  /** All pieces but a shorter last one are full. */
  lemma PieceCount(l: Lengths)
    ensures TotalPieces(l) == l.total / l.pieceLen + (if l.total % l.pieceLen == 0 then 0 else 1)
  {
    var pl, full, n := l.pieceLen, l.total / l.pieceLen, TotalPieces(l);
    assert full * pl + l.total % pl == l.total;
    BlocksAtPoint(l.total, pl, full);
    if n < full { MulMonotone(n, full - 1, pl); StepProduct(full - 1, pl); }
    if n > full + 1 { MulMonotone(full + 1, n - 1, pl); StepProduct(full, pl); }
  }

  /** The created hashes cover every piece iff the last file is not empty or no bytes are left
      over; and each is the hash of its piece. */
  lemma HashesCoverPieces(l: Lengths, data: seq<byte>, hashes: seq<Digest>, lastNonEmpty: bool)
    requires l.total == |data| && PieceHashes(data, l.pieceLen, hashes, lastNonEmpty)
    ensures |hashes| >= TotalPieces(l) <==> lastNonEmpty || l.total % l.pieceLen == 0
    ensures forall p: nat :: p < TotalPieces(l) && p < |hashes| ==> hashes[p] == Sha1(PieceBytes(l, data, p))
  {
    PieceCount(l);
    var pl := l.pieceLen;
    var full, rest :| Hashed(data, pl, full, rest) && |rest| < pl
      && hashes == if lastNonEmpty then full + [Sha1(rest)] else full;
    StepProduct(|full|, pl);
    DivBlock(l.total, pl, |full|);
    forall p: nat | p < TotalPieces(l) && p < |hashes| ensures hashes[p] == Sha1(PieceBytes(l, data, p)) {
      StepProduct(p, pl);
      if p < |full| {
        assert IsPieceHash(data, pl, p, full[p]);
      }
    }
  }

  ghost function PieceBytes(l: Lengths, data: seq<byte>, p: nat): seq<byte>
    requires l.total == |data| && p < TotalPieces(l)
  {
    var start, len := PieceStart(l, p), PieceLength(l, p);
    assert start + len <= l.total;
    data[start..start + len]
  }

  /** Checking the files a torrent was just made from marks every piece, if and only if the last
      file is not empty or the files fill whole pieces; otherwise the check fails. */
  method CreateThenCheck(input: seq<seq<byte>>, l: Lengths) returns (r: Result<seq<bool>>)
    requires |AllBytes(input)| == l.total
    ensures r.Ok? <==> LastNonEmpty(input) || l.total % l.pieceLen == 0
    ensures r.Ok? ==> forall p :: 0 <= p < TotalPieces(l) ==> p < |r.value| && r.value[p]
  {
    var hashes, lens := CreateTorrentRaw(input, l.pieceLen);
    HashesCoverPieces(l, AllBytes(input), hashes, LastNonEmpty(input));
    JoinedIsFlat(input, |input|);
    var st := new Storage(input);
    r := InitialCheck(l, FilesOf(input), st, hashes);
    EveryDigestNeeded(l, input, |hashes|);
    if r.Ok? {
      forall p | 0 <= p < TotalPieces(l) ensures p < |r.value| && r.value[p] {
        SameSlice(l, input, p);
        InputPresent(input, PieceStart(l, p), PieceLength(l, p));
        BitMeans(l, FilesOf(input), input, hashes[p], p, r.value[p]);
      }
    }
  }

  /** On complete files every piece needs its digest. */
  lemma EveryDigestNeeded(l: Lengths, input: seq<seq<byte>>, digests: nat)
    ensures DigestsSuffice(l, FilesOf(input), input, digests, TotalPieces(l)) <==> digests >= TotalPieces(l)
  {
    forall p: nat | p < TotalPieces(l) ensures ReadsThrough(l, FilesOf(input), input, p) {
      forall i: nat | InFile(Lens(FilesOf(input)), i, PieceStart(l, p))
        ensures var from := ReadFrom(l, FilesOf(input), input, p, i);
                Present(FilesOf(input), input, from, PieceEnd(l, p) - from)
      {
        var from := ReadFrom(l, FilesOf(input), input, p, i);
        InputPresent(input, from, PieceEnd(l, p) - from);
      }
    }
    if digests < TotalPieces(l) { assert ReadsThrough(l, FilesOf(input), input, TotalPieces(l) - 1); }
  }

  lemma InputPresent(input: seq<seq<byte>>, start: nat, n: nat)
    ensures Present(FilesOf(input), input, start, n)
  {
  }

  lemma SameSlice(l: Lengths, input: seq<seq<byte>>, p: nat)
    requires |AllBytes(input)| == l.total && p < TotalPieces(l)
    ensures TotalLength(Lens(FilesOf(input))) == l.total
    ensures PieceSlice(l, FilesOf(input), input, p) == PieceBytes(l, AllBytes(input), p)
  {
    JoinedIsFlat(input, |input|);
  }
}
