/** Reading, writing and checking pieces across file boundaries. */
module FileOps {
  import opened Lengths
  import opened FileLayout
  import opened FlatStorage
  import opened Outcomes

  /** SHA-1, taken as injective: a digest stands for the bytes it was made from. */
  datatype Digest = Sha1(preimage: seq<byte>)

  /** One growable byte string per file; reading past the end fails. */
  class Storage {
    var contents: seq<seq<byte>>

    constructor (contents: seq<seq<byte>>)
      ensures this.contents == contents
    {
      this.contents := contents;
    }

    method PreadExact(i: nat, pos: nat, n: nat) returns (r: Result<seq<byte>>)
      ensures r.Ok? <==> i < |contents| && (n == 0 || pos + n <= |contents[i]|)
      ensures r.Ok? ==> r.value == if n == 0 then [] else contents[i][pos..pos + n]
    {
      if i < |contents| && n == 0 {
        return Ok([]);
      }
      if i < |contents| && pos + n <= |contents[i]| {
        return Ok(contents[i][pos..pos + n]);
      }
      return Err("short read");
    }

    method PwriteAll(i: nat, pos: nat, data: seq<byte>)
      requires i < |contents|
      modifies this
      ensures |contents| == |old(contents)|
      ensures forall j :: 0 <= j < |contents| && j != i ==> contents[j] == old(contents)[j]
      ensures |contents[i]| == Max(|old(contents)[i]|, if data == [] then 0 else pos + |data|)
      ensures forall k :: 0 <= k < |contents[i]| ==>
                contents[i][k] == if pos <= k < pos + |data| then data[k - pos]
                                  else if k < |old(contents)[i]| then old(contents)[i][k] else 0
    {
      var c := contents[i];
      var len := Max(|c|, if data == [] then 0 else pos + |data|);
      var c' := seq(len, k requires 0 <= k < len =>
        if pos <= k < pos + |data| then data[k - pos] else if k < |c| then c[k] else 0);
      contents := contents[i := c'];
    }
  }

  // ---- hashing ----

  /** Feeds `n` bytes of file `i` from `pos` to the hash, in blocks of at most `buf` bytes. It
      fails iff the file is real and too short; a failed call may have fed some of them. */
  method UpdateHashFromFile(files: seq<File>, i: nat, pos: nat, st: Storage, hash: seq<byte>, buf: nat, n: nat)
    returns (ok: bool, h: seq<byte>)
    requires i < |files| && buf > 0
    ensures ok <==> n == 0 || Readable(files, st.contents, i, pos, n)
    ensures ok ==> h == hash + Part(files, st.contents, i, pos, n)
  {
    h := hash;
    var todo, at: nat := n, pos;
    ghost var done: nat := 0;
    while todo > 0
      invariant 0 <= todo && done + todo == n && at == pos + done
      invariant FedFromFile(files, st.contents, hash, i, pos, done, h)
    {
      var chunk := Min(buf, todo);
      var r := ReadBlock(files, i, at, st, chunk);
      if r.Err? {
        assert at + chunk <= pos + n && !Readable(files, st.contents, i, pos, n);
        return false, h;
      }
      FedMore(files, st.contents, hash, i, pos, done, h, chunk);
      done := done + chunk;
      todo := todo - chunk;
      at := at + chunk;
      h := h + r.value;
    }
    return true, h;
  }

  /** Reads a block of file `i`; padding files are not in storage and read as zeros. */
  method ReadBlock(files: seq<File>, i: nat, pos: nat, st: Storage, n: nat) returns (r: Result<seq<byte>>)
    requires i < |files|
    ensures r.Ok? <==> Readable(files, st.contents, i, pos, n)
    ensures r.Ok? ==> r.value == Part(files, st.contents, i, pos, n) && |r.value| == n
  {
    if files[i].padding {
      return Ok(Zeros(n));
    }
    r := st.PreadExact(i, pos, n);
  }

  /** `n` bytes of file `i` from `pos`, as far as they are there. */
  function Part(files: seq<File>, contents: seq<seq<byte>>, i: nat, pos: nat, n: nat): seq<byte>
    requires i < |files|
  {
    if n == 0 then []
    else if files[i].padding then Zeros(n)
    else if Readable(files, contents, i, pos, n) then contents[i][pos..pos + n]
    else []
  }

  /** Reading `n` bytes of file `i` from `pos` does not run past its end. */
  predicate Readable(files: seq<File>, contents: seq<seq<byte>>, i: nat, pos: nat, n: nat)
    requires i < |files|
  {
    files[i].padding || (i < |contents| && (n == 0 || pos + n <= |contents[i]|))
  }

  /** `h` is `hash` after the first `n` bytes of file `i` from `pos`, which were there. */
  ghost predicate FedFromFile(files: seq<File>, contents: seq<seq<byte>>, hash: seq<byte>, i: nat, pos: nat, n: nat, h: seq<byte>)
    requires i < |files|
  {
    (n == 0 || Readable(files, contents, i, pos, n)) && h == hash + Part(files, contents, i, pos, n)
  }

  lemma FedMore(files: seq<File>, contents: seq<seq<byte>>, hash: seq<byte>, i: nat, pos: nat, m: nat, h: seq<byte>, n: nat)
    requires i < |files| && FedFromFile(files, contents, hash, i, pos, m, h) && Readable(files, contents, i, pos + m, n)
    ensures FedFromFile(files, contents, hash, i, pos, m + n, h + Part(files, contents, i, pos + m, n))
  {
    PartConcat(files, contents, i, pos, m, n);
    Associates(hash, Part(files, contents, i, pos, m), Part(files, contents, i, pos + m, n));
  }

  lemma PartConcat(files: seq<File>, contents: seq<seq<byte>>, i: nat, pos: nat, m: nat, n: nat)
    requires i < |files| && (m == 0 || Readable(files, contents, i, pos, m)) && Readable(files, contents, i, pos + m, n)
    ensures Part(files, contents, i, pos, m) + Part(files, contents, i, pos + m, n) == Part(files, contents, i, pos, m + n)
  {
  }

  lemma Associates(a: seq<byte>, b: seq<byte>, c: seq<byte>)
    ensures a + b + c == a + (b + c)
  {
  }

  lemma PartByte(files: seq<File>, contents: seq<seq<byte>>, i: nat, pos: nat, n: nat, k: nat, b: nat)
    requires i < |files| && pos + n <= files[i].len && k < |Part(files, contents, i, pos, n)|
    requires b == Offset(Lens(files), i) + pos + k
    ensures InFile(Lens(files), i, b) && StoredByte(files, contents, i, b, Part(files, contents, i, pos, n)[k])
  {
  }

  /** Extending held bytes by the part of one file that follows them. */
  lemma HoldsPart(files: seq<File>, contents: seq<seq<byte>>, start: nat, data: seq<byte>, i: nat, pos: nat, n: nat)
    requires i < |files| && Holds(files, contents, start, data)
    requires start + |data| == Offset(Lens(files), i) + pos && pos + n <= files[i].len
    requires n == 0 || Readable(files, contents, i, pos, n)
    ensures Holds(files, contents, start, data + Part(files, contents, i, pos, n))
  {
    var part := Part(files, contents, i, pos, n);
    forall j: nat, b: nat | InFile(Lens(files), j, b) && start + |data| <= b < start + |data| + |part|
      ensures StoredByte(files, contents, j, b, part[b - (start + |data|)])
    {
      PartByte(files, contents, i, pos, n, b - (start + |data|), b);
      OneOwner(Lens(files), i, j, b);
    }
    HoldsConcat(files, contents, start, data, part);
  }

  ghost function FlatSlice(files: seq<File>, contents: seq<seq<byte>>, start: nat, n: nat): (r: seq<byte>)
    requires |contents| == |files| && start + n <= TotalLength(Lens(files))
    ensures |r| == n
  {
    FlatAll(files, contents)[start..start + n]
  }

  /** The bytes of piece `p` in the flat array. */
  ghost function PieceSlice(l: Lengths, files: seq<File>, contents: seq<seq<byte>>, p: nat): (r: seq<byte>)
    requires p < TotalPieces(l) && TotalLength(Lens(files)) >= l.total && |contents| == |files|
    ensures |r| == PieceLength(l, p)
  {
    var start, len := PieceStart(l, p), PieceLength(l, p);
    assert start + len <= l.total;
    FlatSlice(files, contents, start, len)
  }

  /** Hashes piece `p` as stored and compares. It fails iff some byte of the piece cannot be read
      or the piece has no digest; else it tells whether the flat slice has the expected digest. */
  method CheckPiece(l: Lengths, files: seq<File>, st: Storage, expected: seq<Digest>, p: nat) returns (r: Result<bool>)
    requires p < TotalPieces(l) && TotalLength(Lens(files)) == l.total && |st.contents| == |files|
    ensures r.Ok? <==> PiecePresent(l, files, st.contents, p) && p < |expected|
    ensures r.Ok? ==> (r.value <==> expected[p] == Sha1(PieceSlice(l, files, st.contents, p)))
  {
    var len := PieceLength(l, p);
    var ok, h := HashStretch(files, st, PieceStart(l, p), len, Min(65536, len));
    if !ok {
      return Err("short read");
    }
    if p >= |expected| {
      return Err("compare_hash() did not find the piece");
    }
    HeldIsSlice(files, st.contents, PieceStart(l, p), h);
    return Ok(expected[p] == Sha1(h));
  }

  ghost predicate PiecePresent(l: Lengths, files: seq<File>, contents: seq<seq<byte>>, p: nat)
    requires p < TotalPieces(l)
  {
    Present(files, contents, PieceStart(l, p), PieceLength(l, p))
  }

  /** Hashes `len` bytes from flat offset `start`, file by file; fails iff one cannot be read. */
  method HashStretch(files: seq<File>, st: Storage, start: nat, len: nat, buf: nat) returns (ok: bool, h: seq<byte>)
    requires 0 < len && 0 < buf && start + len <= TotalLength(Lens(files))
    ensures ok <==> Present(files, st.contents, start, len)
    ensures ok ==> |h| == len && Holds(files, st.contents, start, h)
  {
    h := [];
    var abs: nat, remaining: nat := start, len;
    var i := 0;
    while i < |files|
      invariant 0 <= i <= |files| && remaining > 0
      invariant Offset(Lens(files), i) + abs == start + |h| && |h| + remaining == len
      invariant Holds(files, st.contents, start, h)
    {
      if abs > files[i].len {
        abs := abs - files[i].len;
        i := i + 1;
        continue;
      }
      var toRead: nat := Min(files[i].len - abs, remaining);
      var read, h' := UpdateHashFromFile(files, i, abs, st, h, buf, toRead);
      if !read {
        NotPresent(files, st.contents, start, len, i, abs, toRead);
        return false, h;
      }
      HoldsPart(files, st.contents, start, h, i, abs, toRead);
      h := h';
      remaining := remaining - toRead;
      if remaining == 0 {
        break;
      }
      abs := 0;
      i := i + 1;
    }
    HeldIsPresent(files, st.contents, start, h);
    return true, h;
  }

  /** A read that runs past the end of its file asks for a byte that is not there. */
  lemma NotPresent(files: seq<File>, contents: seq<seq<byte>>, start: nat, len: nat, i: nat, pos: nat, n: nat)
    requires i < |files| && 0 < n && pos + n <= files[i].len && !Readable(files, contents, i, pos, n)
    requires start <= Offset(Lens(files), i) + pos && Offset(Lens(files), i) + pos + n <= start + len
    ensures !Present(files, contents, start, len)
  {
    var b := Offset(Lens(files), i) + pos + n - 1;
    assert InFile(Lens(files), i, b) && !PresentByte(files, contents, i, b);
  }

  // ---- the initial check ----

  /** How much of file `i` is there to be read. */
  function Available(contents: seq<seq<byte>>, i: nat): nat { if i < |contents| then |contents[i]| else 0 }

  /** Piece `p` starts in real file `i`, past the bytes that are there: an earlier piece already ran
      past the end of the file, and the rest of the file is passed over. */
  predicate StartsFailed(l: Lengths, files: seq<File>, contents: seq<seq<byte>>, p: nat, i: nat) {
    && InFile(Lens(files), i, PieceStart(l, p)) && !files[i].padding
    && Offset(Lens(files), i) + Available(contents, i) < PieceStart(l, p)
  }

  /** Where reading of piece `p`, which starts in file `i`, begins. */
  function ReadFrom(l: Lengths, files: seq<File>, contents: seq<seq<byte>>, p: nat, i: nat): (from: nat)
    requires p < TotalPieces(l) && InFile(Lens(files), i, PieceStart(l, p))
    ensures PieceStart(l, p) <= from <= PieceEnd(l, p)
    ensures from == PieceStart(l, p) <==> !StartsFailed(l, files, contents, p, i)
  {
    assert PieceLength(l, p) > 0;
    if StartsFailed(l, files, contents, p, i) then Min(PieceEnd(l, p), Offset(Lens(files), i + 1)) else PieceStart(l, p)
  }

  /** Every byte of the piece that is not passed over can be read. */
  ghost predicate ReadsThrough(l: Lengths, files: seq<File>, contents: seq<seq<byte>>, p: nat)
    requires p < TotalPieces(l)
  {
    forall i: nat :: InFile(Lens(files), i, PieceStart(l, p)) ==>
      var from := ReadFrom(l, files, contents, p, i);
      Present(files, contents, from, PieceEnd(l, p) - from)
  }

  /** The bit of piece `p` after the initial check, on any storage: set iff every byte of the piece
      that is not passed over can be read, and those bytes have the expected digest. */
  ghost predicate Judged(l: Lengths, files: seq<File>, contents: seq<seq<byte>>, d: Digest, p: nat, bit: bool)
    requires p < TotalPieces(l) && TotalLength(Lens(files)) >= l.total && |contents| == |files|
  {
    forall i: nat :: InFile(Lens(files), i, PieceStart(l, p)) ==>
      var from := ReadFrom(l, files, contents, p, i);
      (bit <==> ReadsThrough(l, files, contents, p)
                && d == Sha1(FlatSlice(files, contents, from, PieceEnd(l, p) - from)))
  }

  /** The bits of the first `n` pieces, as far as there are digests. */
  ghost predicate JudgedBelow(l: Lengths, files: seq<File>, contents: seq<seq<byte>>, expected: seq<Digest>, bits: seq<bool>, n: nat)
    requires n <= TotalPieces(l) && n <= |bits| && TotalLength(Lens(files)) >= l.total && |contents| == |files|
  {
    forall p: nat :: p < n && p < |expected| ==> Judged(l, files, contents, expected[p], p, bits[p])
  }

  /** Among the first `n` pieces, none that reads through lacks a digest. */
  ghost predicate DigestsSuffice(l: Lengths, files: seq<File>, contents: seq<seq<byte>>, digests: nat, n: nat)
    requires n <= TotalPieces(l)
  {
    forall p: nat :: p < n && ReadsThrough(l, files, contents, p) ==> p < digests
  }

  /** Where the forward pass stands: inside file `index`, which is broken iff a read already ran
      past its end. */
  datatype CurrentFile = CurrentFile(index: nat, processed: nat, broken: bool)

  ghost predicate FileCursor(files: seq<File>, contents: seq<seq<byte>>, f: CurrentFile, pos: nat) {
    && f.index < |files| && f.processed <= files[f.index].len
    && Offset(Lens(files), f.index) + f.processed == pos
    && (f.broken <==> !files[f.index].padding && f.processed > Available(contents, f.index))
  }

  /** One forward pass over all files; each piece is hashed from where the last one ended. */
  method InitialCheck(l: Lengths, files: seq<File>, st: Storage, expected: seq<Digest>) returns (r: Result<seq<bool>>)
    requires |st.contents| == |files|
    ensures r.Ok? <==> TotalLength(Lens(files)) >= l.total
                       && DigestsSuffice(l, files, st.contents, |expected|, TotalPieces(l))
    ensures r.Ok? ==> |r.value| == 8 * CeilDiv(TotalPieces(l), 8)
    ensures r.Ok? ==> forall q :: 0 <= q < |r.value| && (q >= TotalPieces(l) || q >= |expected|) ==> !r.value[q]
    ensures r.Ok? ==> JudgedBelow(l, files, st.contents, expected, r.value, TotalPieces(l))
  {
    var bits := seq(8 * CeilDiv(TotalPieces(l), 8), _ => false);
    if files == [] {
      return Err("empty input file list");
    }
    var f := CurrentFile(0, 0, false);
    var p := 0;
    while p < TotalPieces(l)
      invariant p <= TotalPieces(l) && |bits| == 8 * CeilDiv(TotalPieces(l), 8)
      invariant FileCursor(files, st.contents, f, if p < TotalPieces(l) then PieceStart(l, p) else l.total)
      invariant forall q :: 0 <= q < |bits| && (q >= p || q >= |expected|) ==> !bits[q]
      invariant TotalLength(Lens(files)) >= l.total ==> Checked(l, files, st.contents, expected, bits, p)
    {
      PiecesAbut(l, p);
      ghost var f0, was := f, bits;
      var ok, someBroken, h;
      ok, f, someBroken, h := HashPiece(l, files, st, p, f);
      if !ok {
        return Err("broken torrent metadata");
      }
      FilePrefix(files, f.index + 1);
      if !someBroken {
        if p >= |expected| {
          if TotalLength(Lens(files)) >= l.total { FedWhole(l, files, st.contents, p, f0, someBroken, h); }
          return Err("piece index invalid");
        }
        if expected[p] == Sha1(h) {
          bits := bits[p := true];
        }
      }
      if TotalLength(Lens(files)) >= l.total {
        CheckedMore(l, files, st.contents, expected, was, bits, p, f0, someBroken, h);
      }
      p := p + 1;
    }
    FilePrefix(files, f.index + 1);
    return Ok(bits);
  }

  ghost predicate Checked(l: Lengths, files: seq<File>, contents: seq<seq<byte>>, expected: seq<Digest>, bits: seq<bool>, n: nat)
    requires n <= TotalPieces(l) && n <= |bits| && TotalLength(Lens(files)) >= l.total && |contents| == |files|
  {
    JudgedBelow(l, files, contents, expected, bits, n) && DigestsSuffice(l, files, contents, |expected|, n)
  }

  /** One more piece is checked. */
  lemma CheckedMore(l: Lengths, files: seq<File>, contents: seq<seq<byte>>, expected: seq<Digest>, was: seq<bool>, bits: seq<bool>,
                    p: nat, f0: CurrentFile, someBroken: bool, h: seq<byte>)
    requires p < TotalPieces(l) && p < |was| && TotalLength(Lens(files)) >= l.total && |contents| == |files|
    requires Checked(l, files, contents, expected, was, p) && !was[p]
    requires FileCursor(files, contents, f0, PieceStart(l, p)) && SkipTo(l, files, p, f0) >= 0
    requires Fed(files, contents, SkipTo(l, files, p, f0), PieceEnd(l, p), someBroken, h) && (someBroken || p < |expected|)
    requires bits == if !someBroken && expected[p] == Sha1(h) then was[p := true] else was
    ensures Checked(l, files, contents, expected, bits, p + 1)
  {
    FedWhole(l, files, contents, p, f0, someBroken, h);
    if p < |expected| { JudgePiece(l, files, contents, p, expected[p], f0, someBroken, h); }
  }

  lemma FilePrefix(files: seq<File>, n: nat)
    requires n <= |files|
    ensures Offset(Lens(files), n) <= TotalLength(Lens(files))
  {
    OffsetMonotone(Lens(files), n, |files|);
  }

  /** A stretch was read from `from` to `to`: unless some byte was not there, `h` is its bytes. */
  ghost predicate Fed(files: seq<File>, contents: seq<seq<byte>>, from: nat, to: nat, someBroken: bool, h: seq<byte>) {
    var n := Max(0, to - from);
    && (someBroken <==> !Present(files, contents, from, n))
    && (!someBroken ==> |h| == n && Holds(files, contents, from, h))
  }

  /** Where reading begins, given the cursor at the start of the piece. */
  function SkipTo(l: Lengths, files: seq<File>, p: nat, f0: CurrentFile): int
    requires f0.index < |files|
  {
    if f0.broken then Min(PieceEnd(l, p), Offset(Lens(files), f0.index + 1)) else PieceStart(l, p)
  }

  /** The cursor skips exactly the bytes passed over. */
  lemma SkipIsReadFrom(l: Lengths, files: seq<File>, contents: seq<seq<byte>>, p: nat, f0: CurrentFile, i: nat)
    requires p < TotalPieces(l) && FileCursor(files, contents, f0, PieceStart(l, p))
    requires InFile(Lens(files), i, PieceStart(l, p))
    ensures SkipTo(l, files, p, f0) == ReadFrom(l, files, contents, p, i)
  {
    assert PieceLength(l, p) > 0;
    if f0.index < i { OffsetMonotone(Lens(files), f0.index + 1, i); }
    if i < f0.index { OffsetMonotone(Lens(files), i + 1, f0.index); }
  }

  /** A piece fed without a failed read reads through, and conversely. */
  lemma FedWhole(l: Lengths, files: seq<File>, contents: seq<seq<byte>>, p: nat, f0: CurrentFile, someBroken: bool, h: seq<byte>)
    requires p < TotalPieces(l) && TotalLength(Lens(files)) >= l.total
    requires FileCursor(files, contents, f0, PieceStart(l, p)) && SkipTo(l, files, p, f0) >= 0
    requires Fed(files, contents, SkipTo(l, files, p, f0), PieceEnd(l, p), someBroken, h)
    ensures someBroken <==> !ReadsThrough(l, files, contents, p)
  {
    assert PieceLength(l, p) > 0;
    var o := Owner(Lens(files), |files|, PieceStart(l, p));
    SkipIsReadFrom(l, files, contents, p, f0, o);
    forall i: nat | InFile(Lens(files), i, PieceStart(l, p))
      ensures ReadFrom(l, files, contents, p, i) == SkipTo(l, files, p, f0)
    {
      SkipIsReadFrom(l, files, contents, p, f0, i);
    }
  }

  /** The verdict that follows from what was fed. */
  lemma JudgePiece(l: Lengths, files: seq<File>, contents: seq<seq<byte>>, p: nat, d: Digest, f0: CurrentFile, someBroken: bool, h: seq<byte>)
    requires p < TotalPieces(l) && TotalLength(Lens(files)) >= l.total && |contents| == |files|
    requires FileCursor(files, contents, f0, PieceStart(l, p)) && SkipTo(l, files, p, f0) >= 0
    requires Fed(files, contents, SkipTo(l, files, p, f0), PieceEnd(l, p), someBroken, h)
    ensures Judged(l, files, contents, d, p, !someBroken && d == Sha1(h))
  {
    FedWhole(l, files, contents, p, f0, someBroken, h);
    assert PieceLength(l, p) > 0;
    forall i: nat | InFile(Lens(files), i, PieceStart(l, p))
      ensures var from := ReadFrom(l, files, contents, p, i);
              !someBroken ==> h == FlatSlice(files, contents, from, PieceEnd(l, p) - from)
    {
      SkipIsReadFrom(l, files, contents, p, f0, i);
      if !someBroken { HeldIsSlice(files, contents, ReadFrom(l, files, contents, p, i), h); }
    }
  }

  /** What a bit says about the piece. A piece that can be read whole is judged as a piece check
      would; a set bit means that the piece was read whole and matched if and only if the piece does
      not start in a file that had already failed; and with the digest of a piece-long string a set
      bit always means that. */
  lemma BitMeans(l: Lengths, files: seq<File>, contents: seq<seq<byte>>, d: Digest, p: nat, bit: bool)
    requires p < TotalPieces(l) && TotalLength(Lens(files)) >= l.total && |contents| == |files|
    requires Judged(l, files, contents, d, p, bit)
    ensures PiecePresent(l, files, contents, p) ==> (bit <==> d == Sha1(PieceSlice(l, files, contents, p)))
    ensures bit ==>
              (PiecePresent(l, files, contents, p) && d == Sha1(PieceSlice(l, files, contents, p))
               <==> forall i: nat :: !StartsFailed(l, files, contents, p, i))
    ensures bit && |d.preimage| == PieceLength(l, p) ==>
              PiecePresent(l, files, contents, p) && d == Sha1(PieceSlice(l, files, contents, p))
  {
    var start := PieceStart(l, p);
    assert PieceLength(l, p) > 0;
    var o := Owner(Lens(files), |files|, start);
    var from := ReadFrom(l, files, contents, p, o);
    forall i: nat | InFile(Lens(files), i, start) ensures i == o { OneOwner(Lens(files), i, o, start); }
    if StartsFailed(l, files, contents, p, o) {
      assert !PresentByte(files, contents, o, start);
      assert !PiecePresent(l, files, contents, p);
    } else {
      assert from == start;
    }
  }

  /** A piece nobody read can be marked: file 0 of three bytes is missing from storage, file 1 is the
      byte 9, pieces are of two bytes. Piece 1 starts in file 0, which failed with piece 0, and is
      judged by the hash of its last byte alone. */
  lemma UnreadPieceMarked(bit: bool)
    ensures var l, files, contents := Lengths(4, 2), [File(3, false), File(1, false)], [[], [9 as byte]];
            && TotalPieces(l) == 2 && TotalLength(Lens(files)) == 4
            && !PiecePresent(l, files, contents, 1)
            && (Judged(l, files, contents, Sha1([9]), 1, bit) <==> bit)
  {
    var l, files, contents := Lengths(4, 2), [File(3, false), File(1, false)], [[], [9 as byte]];
    var lens := Lens(files);
    assert lens == [3, 1];
    assert Offset(lens, 0) == 0 && Offset(lens, 1) == 3 && Offset(lens, 2) == 4;
    assert TotalPieces(l) == 2 && PieceStart(l, 1) == 2 && PieceEnd(l, 1) == 4;
    assert InFile(lens, 0, 2) && !PresentByte(files, contents, 0, 2);
    assert StartsFailed(l, files, contents, 1, 0) && ReadFrom(l, files, contents, 1, 0) == 3;
    forall i: nat | InFile(lens, i, 2) ensures i == 0 { OneOwner(lens, i, 0, 2); }
    forall i: nat, b: nat | InFile(lens, i, b) && 3 <= b < 4 ensures PresentByte(files, contents, i, b) {
      OneOwner(lens, i, 1, b);
    }
    assert ReadsThrough(l, files, contents, 1);
    assert InFile(lens, 1, 3);
    FlatByte(files, contents, 2, 1, 3);
    assert FlatSlice(files, contents, 3, 1) == [9];
  }

  /** Feeds one piece to the hash, moving on through the files; fails iff the files run out. */
  method HashPiece(l: Lengths, files: seq<File>, st: Storage, p: nat, f0: CurrentFile)
    returns (ok: bool, f: CurrentFile, someBroken: bool, h: seq<byte>)
    requires p < TotalPieces(l) && FileCursor(files, st.contents, f0, PieceStart(l, p))
    ensures ok <==> PieceEnd(l, p) <= TotalLength(Lens(files))
    ensures ok ==> FileCursor(files, st.contents, f, PieceEnd(l, p))
    ensures ok ==> SkipTo(l, files, p, f0) >= 0
    ensures ok ==> Fed(files, st.contents, SkipTo(l, files, p, f0), PieceEnd(l, p), someBroken, h)
  {
    f, someBroken, h := f0, false, [];
    ghost var start := PieceStart(l, p);
    var len := PieceLength(l, p);
    ghost var from: nat := SkipTo(l, files, p, f0);
    var remaining: nat := len;
    while remaining > 0
      invariant remaining <= len
      invariant FileCursor(files, st.contents, f, start + len - remaining)
      invariant if remaining == len then f == f0
                else remaining == 0 || f.processed == files[f.index].len
      invariant remaining < len ==> from <= start + len - remaining
      invariant Fed(files, st.contents, from, start + len - remaining, someBroken, h)
    {
      var found;
      found, f := NextNonEmpty(files, f, st, start + len - remaining);
      if !found {
        return false, f, someBroken, h;
      }
      FilePrefix(files, f.index + 1);
      var toRead: nat := Min(files[f.index].len - f.processed, remaining);
      if remaining == len { FirstRead(l, files, st.contents, p, f0, f); }
      f, someBroken, h := FeedFromFile(files, st, from, start + len - remaining, f, toRead, someBroken, h);
      remaining := remaining - toRead;
    }
    FilePrefix(files, f.index + 1);
    return true, f, someBroken, h;
  }

  /** The first file of a piece is passed over as a whole if it is broken. */
  lemma FirstRead(l: Lengths, files: seq<File>, contents: seq<seq<byte>>, p: nat, f0: CurrentFile, f: CurrentFile)
    requires p < TotalPieces(l) && FileCursor(files, contents, f0, PieceStart(l, p)) && f.index < |files|
    requires if f0.processed < files[f0.index].len then f == f0 else !f.broken
    ensures if f.broken then PieceStart(l, p) + Min(files[f.index].len - f.processed, PieceLength(l, p)) == SkipTo(l, files, p, f0)
            else SkipTo(l, files, p, f0) == PieceStart(l, p)
  {
    assert PieceLength(l, p) > 0;
  }

  /** Feeds `n` more bytes from the current file, at flat offset `at`, or passes over them if the
      file is broken. */
  method FeedFromFile(files: seq<File>, st: Storage, ghost from: nat, ghost at: nat,
                      f: CurrentFile, n: nat, someBroken: bool, h: seq<byte>)
    returns (f': CurrentFile, someBroken': bool, h': seq<byte>)
    requires FileCursor(files, st.contents, f, at)
    requires 0 < n && f.processed + n <= files[f.index].len
    requires if f.broken then at + n == from else from <= at
    requires Fed(files, st.contents, from, at, someBroken, h)
    ensures FileCursor(files, st.contents, f', at + n)
    ensures f'.index == f.index && f'.processed == f.processed + n
    ensures Fed(files, st.contents, from, at + n, someBroken', h')
  {
    f', someBroken', h' := f.(processed := f.processed + n), someBroken, h;
    if f.broken {
      return;
    }
    MorePresent(files, st.contents, from, at - from, f.index, f.processed, n);
    var read;
    read, h' := UpdateHashFromFile(files, f.index, f.processed, st, h, 65536, n);
    if read {
      if !someBroken {
        HoldsPart(files, st.contents, from, h, f.index, f.processed, n);
        HeldIsPresent(files, st.contents, from, h');
      }
    } else {
      f', someBroken' := f'.(broken := true), true;
    }
  }

  lemma MorePresent(files: seq<File>, contents: seq<seq<byte>>, start: nat, done: nat, i: nat, pos: nat, n: nat)
    requires i < |files| && 0 < n && pos + n <= files[i].len && start + done == Offset(Lens(files), i) + pos
    ensures Present(files, contents, start, done + n) ==>
              && Present(files, contents, start, done)
              && (files[i].padding || pos + n <= Available(contents, i))
  {
    if !Readable(files, contents, i, pos, n) { NotPresent(files, contents, start, done + n, i, pos, n); }
    if Present(files, contents, start, done + n) {
      forall j: nat, b: nat | InFile(Lens(files), j, b) && start <= b < start + done ensures PresentByte(files, contents, j, b) {}
    }
  }

  /** Moves on to a file with bytes left; fails iff there is none. */
  method NextNonEmpty(files: seq<File>, f0: CurrentFile, st: Storage, ghost pos: nat)
    returns (ok: bool, f: CurrentFile)
    requires FileCursor(files, st.contents, f0, pos)
    ensures ok <==> pos < TotalLength(Lens(files))
    ensures ok ==> FileCursor(files, st.contents, f, pos) && f.processed < files[f.index].len
    ensures ok ==> if f0.processed < files[f0.index].len then f == f0 else !f.broken
  {
    f := f0;
    while f.processed == files[f.index].len
      invariant FileCursor(files, st.contents, f, pos)
      invariant f == f0 || (f0.processed == files[f0.index].len && !f.broken)
      decreases |files| - f.index
    {
      if f.index + 1 == |files| {
        return false, f;
      }
      f := CurrentFile(f.index + 1, 0, false);
    }
    FilePrefix(files, f.index + 1);
    return true, f;
  }

  // ---- chunks ----

  /** Fills the buffer from flat offset `off` on, as far as the torrent goes, and leaves the rest
      of it alone. Fails iff the buffer is too small or some byte cannot be read. */
  method ReadChunk(files: seq<File>, st: Storage, off: nat, size: nat, buf: array<byte>) returns (r: Result<()>)
    requires |st.contents| == |files|
    modifies buf
    ensures r.Ok? <==> buf.Length >= size && Present(files, st.contents, off, buf.Length)
    ensures buf.Length < size ==> buf[..] == old(buf[..])
    ensures r.Ok? ==> Filled(FlatAll(files, st.contents), off, old(buf[..]), buf[..])
  {
    if buf.Length < size {
      return Err("not enough capacity in the provided buffer");
    }
    var ok, done := FillBuffer(files, st, off, buf);
    if !ok {
      return Err("short read");
    }
    if done > 0 { HeldIsSlice(files, st.contents, off, buf[..done]); }
    return Ok(());
  }

  /** `after` is `before` with its front overwritten by the flat bytes from `off` on. */
  ghost predicate Filled(flat: seq<byte>, off: nat, before: seq<byte>, after: seq<byte>) {
    && |after| == |before|
    && forall k :: 0 <= k < |after| ==> after[k] == if off + k < |flat| then flat[off + k] else before[k]
  }

  method FillBuffer(files: seq<File>, st: Storage, off: nat, buf: array<byte>) returns (ok: bool, done: nat)
    requires |st.contents| == |files|
    modifies buf
    ensures ok <==> Present(files, st.contents, off, buf.Length)
    ensures ok ==> done == Max(0, Min(buf.Length, TotalLength(Lens(files)) - off))
    ensures ok ==> Holds(files, st.contents, off, buf[..done]) && forall k :: done <= k < buf.Length ==> buf[k] == old(buf[k])
  {
    var abs: nat := off;
    done := 0;
    var i := 0;
    while i < |files|
      invariant 0 <= i <= |files| && done <= buf.Length
      invariant Offset(Lens(files), i) + abs == off + done && (done < buf.Length || done == 0) && (done > 0 ==> abs == 0)
      invariant Holds(files, st.contents, off, buf[..done]) && forall k :: done <= k < buf.Length ==> buf[k] == old(buf[k])
    {
      if abs > files[i].len {
        abs := abs - files[i].len;
        i := i + 1;
        continue;
      }
      var toRead: nat := Min(files[i].len - abs, buf.Length - done);
      var r := ReadBlock(files, i, abs, st, toRead);
      if r.Err? {
        NotPresent(files, st.contents, off, buf.Length, i, abs, toRead);
        return false, done;
      }
      HoldsPart(files, st.contents, off, buf[..done], i, abs, toRead);
      CopyInto(buf, done, r.value);
      done := done + toRead;
      if done == buf.Length {
        FilePrefix(files, i + 1);
        break;
      }
      abs := 0;
      i := i + 1;
    }
    PresentToEnd(files, st.contents, off, buf[..done], buf.Length);
    return true, done;
  }

  /** Past the end of the torrent there is nothing to be read. */
  lemma PresentToEnd(files: seq<File>, contents: seq<seq<byte>>, off: nat, data: seq<byte>, n: nat)
    requires Holds(files, contents, off, data) && |data| == Max(0, Min(n, TotalLength(Lens(files)) - off))
    ensures Present(files, contents, off, n)
  {
    HeldIsPresent(files, contents, off, data);
    PresentPastEnd(files, contents, off, |data|, n);
  }

  method CopyInto(buf: array<byte>, at: nat, block: seq<byte>)
    requires at + |block| <= buf.Length
    modifies buf
    ensures buf[..at + |block|] == old(buf[..at]) + block
    ensures forall k :: at + |block| <= k < buf.Length ==> buf[k] == old(buf[k])
  {
    forall k | 0 <= k < |block| { buf[at + k] := block[k]; }
  }

  /** A file at flat offset `start` holds its old bytes `c`, overwritten by `data` where the flat
      range `off..` meets it. */
  ghost predicate FilePatched(start: nat, c: seq<byte>, c': seq<byte>, off: nat, data: seq<byte>) {
    && |c'| == |c|
    && forall k :: 0 <= k < |c'| ==>
         c'[k] == PatchByte(off, data, start + k, false, c[k])
  }

  ghost predicate Patched(files: seq<File>, before: seq<seq<byte>>, after: seq<seq<byte>>, off: nat, data: seq<byte>, j: nat)
    requires j < |files| == |before| == |after|
  {
    files[j].padding ||
    FilePatched(Offset(Lens(files), j), FileBytes(files, before, j), FileBytes(files, after, j), off, data)
  }

  ghost predicate AllPatched(files: seq<File>, before: seq<seq<byte>>, after: seq<seq<byte>>, off: nat, data: seq<byte>, n: nat)
    requires n <= |files| == |before| == |after|
  {
    forall j :: 0 <= j < n ==> Patched(files, before, after, off, data, j)
  }

  /** One file's step leaves the files before it patched. */
  lemma PatchedStep(files: seq<File>, before: seq<seq<byte>>, mid: seq<seq<byte>>, after: seq<seq<byte>>, off: nat, data: seq<byte>, i: nat)
    requires i < |files| == |before| == |mid| == |after|
    requires AllPatched(files, before, mid, off, data, i) && Patched(files, before, after, off, data, i)
    requires forall j :: 0 <= j < i ==> after[j] == mid[j]
    ensures AllPatched(files, before, after, off, data, i + 1)
  {
    forall j | 0 <= j < i ensures Patched(files, before, after, off, data, j) {
      assert Patched(files, before, mid, off, data, j) && after[j] == mid[j];
    }
  }

  /** Files from `i` on that the chunk does not reach. */
  lemma PatchedRest(files: seq<File>, before: seq<seq<byte>>, after: seq<seq<byte>>, off: nat, data: seq<byte>, i: nat)
    requires i <= |files| == |before| == |after| && AllPatched(files, before, after, off, data, i)
    requires i < |files| ==> off + |data| <= Offset(Lens(files), i)
    requires forall j :: i <= j < |files| ==> after[j] == before[j]
    ensures AllPatched(files, before, after, off, data, |files|)
  {
    forall j | i <= j < |files| ensures Patched(files, before, after, off, data, j) {
      OffsetMonotone(Lens(files), i, j);
    }
  }

  lemma PatchedIsPatch(files: seq<File>, before: seq<seq<byte>>, after: seq<seq<byte>>, off: nat, data: seq<byte>)
    requires |files| == |before| == |after| && AllPatched(files, before, after, off, data, |files|)
    ensures FlatAll(files, after) == Patch(FlatAll(files, before), PadMask(files, |files|), off, data)
  {
    FlatBytes(files, before);
    FlatBytes(files, after);
    PatchedFlat(files, before, after, off, data, FlatAll(files, before), FlatAll(files, after), PadMask(files, |files|));
  }

  lemma PatchedFlat(files: seq<File>, before: seq<seq<byte>>, after: seq<seq<byte>>, off: nat, data: seq<byte>,
                    flat: seq<byte>, flat': seq<byte>, mask: seq<bool>)
    requires |files| == |before| == |after| && AllPatched(files, before, after, off, data, |files|)
    requires IsFlat(files, before, flat, mask) && IsFlat(files, after, flat', mask)
    ensures flat' == Patch(flat, mask, off, data)
  {
    forall b: nat | b < |flat'| ensures flat'[b] == PatchByte(off, data, b, mask[b], flat[b]) {
      var i := Owner(Lens(files), |files|, b);
      PatchedFlatByte(files, before, after, off, data, i, b, flat[b], flat'[b]);
    }
  }

  lemma PatchedFlatByte(files: seq<File>, before: seq<seq<byte>>, after: seq<seq<byte>>, off: nat, data: seq<byte>,
                        i: nat, b: nat, x: byte, x': byte)
    requires i < |files| == |before| == |after| && InFile(Lens(files), i, b)
    requires Patched(files, before, after, off, data, i)
    requires x == FileBytes(files, before, i)[b - Offset(Lens(files), i)]
    requires x' == FileBytes(files, after, i)[b - Offset(Lens(files), i)]
    ensures x' == PatchByte(off, data, b, files[i].padding, x)
  {
    var start := Offset(Lens(files), i);
    if files[i].padding {
      assert x == 0 && x' == 0;
    } else {
      FilePatchedByte(start, FileBytes(files, before, i), FileBytes(files, after, i), off, data, b - start, b, x, x');
    }
  }

  lemma FilePatchedByte(start: nat, c: seq<byte>, c': seq<byte>, off: nat, data: seq<byte>, k: nat, b: nat, x: byte, x': byte)
    requires k < |c| && b == start + k && FilePatched(start, c, c', off, data) && x == c[k] && x' == c'[k]
    ensures x' == PatchByte(off, data, b, false, x)
  {
  }

  /** Writing `n` bytes of `data` from `done` on at `abs` patches the file. */
  lemma WrittenIsPatched(len: nat, c: seq<byte>, c': seq<byte>, start: nat, abs: nat, off: nat, data: seq<byte>, done: nat, n: nat)
    requires abs <= len && start + abs == off + done && done <= |data| && (done > 0 ==> abs == 0)
    requires n == Min(|data| - done, len - abs) && |c'| == Max(|c|, if n == 0 then 0 else abs + n)
    requires forall k :: 0 <= k < |c'| ==>
               c'[k] == if abs <= k < abs + n then data[done + (k - abs)] else if k < |c| then c[k] else 0
    ensures FilePatched(start, Extended(c, len), Extended(c', len), off, data)
  {
  }

  /** The part of a chunk that falls into one file. */
  method WriteInFile(files: seq<File>, st: Storage, i: nat, abs: nat, off: nat, data: seq<byte>, done: nat, toWrite: nat)
    requires i < |files| == |st.contents| && abs <= files[i].len && done <= |data|
    requires Offset(Lens(files), i) + abs == off + done && (done > 0 ==> abs == 0)
    requires toWrite == Min(|data| - done, files[i].len - abs)
    modifies st
    ensures Grown(old(st.contents), st.contents) && Readable(files, st.contents, i, abs, toWrite)
    ensures forall j :: 0 <= j < |files| && j != i ==> st.contents[j] == old(st.contents)[j]
    ensures Patched(files, old(st.contents), st.contents, off, data, i)
  {
    if !files[i].padding {
      ghost var c := st.contents[i];
      st.PwriteAll(i, abs, data[done..done + toWrite]);
      WrittenIsPatched(files[i].len, c, st.contents[i], Offset(Lens(files), i), abs, off, data, done, toWrite);
    }
  }

  /** Written bytes can be read. */
  lemma WrittenPresent(files: seq<File>, before: seq<seq<byte>>, after: seq<seq<byte>>, off: nat, done: nat, i: nat, abs: nat, n: nat)
    requires i < |files| == |before| && Grown(before, after) && Present(files, before, off, done)
    requires abs + n <= files[i].len && Offset(Lens(files), i) + abs == off + done && Readable(files, after, i, abs, n)
    ensures Present(files, after, off, done + n)
  {
    PresentGrown(files, before, after, off, done);
    forall j: nat, b: nat | InFile(Lens(files), j, b) && off <= b < off + done + n ensures PresentByte(files, after, j, b) {
      if off + done <= b {
        assert InFile(Lens(files), i, b);
        OneOwner(Lens(files), i, j, b);
      }
    }
  }

  /** Writes a chunk at flat offset `off`: the flat array is patched there, padding excepted, and
      nothing else changes. Files shorter than they should be grow as needed, so that all of the
      chunk can be read afterwards. */
  method WriteChunk(files: seq<File>, st: Storage, off: nat, data: seq<byte>)
    requires |st.contents| == |files|
    modifies st
    ensures Grown(old(st.contents), st.contents) && Present(files, st.contents, off, |data|)
    ensures FlatAll(files, st.contents)
            == Patch(FlatAll(files, old(st.contents)), PadMask(files, |files|), off, data)
  {
    ghost var before := st.contents;
    var abs: nat, done: nat := off, 0;
    var i := 0;
    while i < |files|
      invariant 0 <= i <= |files| && done <= |data|
      invariant Grown(before, st.contents) && Present(files, st.contents, off, done)
      invariant Offset(Lens(files), i) + abs == off + done && (done > 0 ==> abs == 0)
      invariant AllPatched(files, before, st.contents, off, data, i)
      invariant forall j :: i <= j < |files| ==> st.contents[j] == before[j]
      invariant done == |data| ==> data == []
    {
      ghost var mid := st.contents;
      if abs > files[i].len {
        PatchedStep(files, before, mid, mid, off, data, i);
        abs := abs - files[i].len;
        i := i + 1;
        continue;
      }
      var toWrite: nat := Min(|data| - done, files[i].len - abs);
      WriteInFile(files, st, i, abs, off, data, done, toWrite);
      WrittenPresent(files, mid, st.contents, off, done, i, abs, toWrite);
      assert Patched(files, before, st.contents, off, data, i);
      PatchedStep(files, before, mid, st.contents, off, data, i);
      done := done + toWrite;
      abs := 0;
      i := i + 1;
      if done == |data| {
        break;
      }
    }
    PresentPastEnd(files, st.contents, off, done, |data|);
    PatchedRest(files, before, st.contents, off, data, i);
    PatchedIsPatch(files, before, st.contents, off, data);
  }

  lemma PresentPastEnd(files: seq<File>, contents: seq<seq<byte>>, off: nat, done: nat, n: nat)
    requires Present(files, contents, off, done) && (done < n ==> TotalLength(Lens(files)) <= off + done)
    ensures Present(files, contents, off, n)
  {
    forall i: nat, b: nat | InFile(Lens(files), i, b) && off <= b < off + n ensures PresentByte(files, contents, i, b) {
      FilePrefix(files, i + 1);
    }
  }

  /** A chunk read back is the chunk written, with zeros where it lies in padding, on any storage. */
  method WriteThenRead(files: seq<File>, st: Storage, off: nat, data: seq<byte>, buf: array<byte>) returns (r: Result<()>)
    requires |st.contents| == |files| && off + |data| <= TotalLength(Lens(files)) && buf.Length == |data|
    modifies st, buf
    ensures r.Ok?
    ensures forall k :: 0 <= k < |data| ==> buf[k] == if PadMask(files, |files|)[off + k] then 0 else data[k]
  {
    ghost var flat := FlatAll(files, st.contents);
    WriteChunk(files, st, off, data);
    r := ReadChunk(files, st, off, |data|, buf);
    forall k | 0 <= k < |data| ensures buf[k] == if PadMask(files, |files|)[off + k] then 0 else data[k] {
      PadsAreZero(files, old(st.contents), off + k);
      assert buf[..][k] == FlatAll(files, st.contents)[off + k];
    }
  }
}
