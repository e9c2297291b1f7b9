/** Files of a torrent seen as one flat array of bytes. Padding files read as zeros. */
module FlatStorage {
  import opened FileLayout

  newtype byte = x: int | 0 <= x < 256

  datatype File = File(len: nat, padding: bool)

  function Lens(files: seq<File>): (r: seq<nat>) { seq(|files|, i requires 0 <= i < |files| => files[i].len) }

  function Zeros(n: nat): seq<byte> { seq(n, _ => 0) }

  /** The first `n` bytes of `c`, with zeros for those that are missing, as a sparse file reads. */
  function Extended(c: seq<byte>, n: nat): (r: seq<byte>) {
    seq(n, k requires 0 <= k < n => if k < |c| then c[k] else 0)
  }

  function FileBytes(files: seq<File>, contents: seq<seq<byte>>, i: nat): (r: seq<byte>)
    requires i < |files| && i < |contents|
    ensures |r| == files[i].len
  {
    if files[i].padding then Zeros(files[i].len) else Extended(contents[i], files[i].len)
  }

  /** The first `n` files end to end, missing bytes as zeros. */
  ghost function Flat(files: seq<File>, contents: seq<seq<byte>>, n: nat): (r: seq<byte>)
    requires |contents| == |files| && n <= |files|
    ensures |r| == Offset(Lens(files), n)
  {
    if n == 0 then [] else Flat(files, contents, n - 1) + FileBytes(files, contents, n - 1)
  }

  ghost function FlatAll(files: seq<File>, contents: seq<seq<byte>>): (r: seq<byte>)
    requires |contents| == |files|
    ensures |r| == TotalLength(Lens(files))
  {
    Flat(files, contents, |files|)
  }

  /** Which bytes of the torrent lie in padding files. */
  ghost function PadMask(files: seq<File>, n: nat): (r: seq<bool>)
    requires n <= |files|
    ensures |r| == Offset(Lens(files), n)
  {
    if n == 0 then [] else PadMask(files, n - 1) + seq(files[n - 1].len, _ => files[n - 1].padding)
  }

  /** Byte `b`, in file `i`, can be read and is `v`. */
  predicate StoredByte(files: seq<File>, contents: seq<seq<byte>>, i: nat, b: nat, v: byte)
    requires InFile(Lens(files), i, b)
  {
    var k := b - Offset(Lens(files), i);
    if files[i].padding then v == 0 else i < |contents| && k < |contents[i]| && contents[i][k] == v
  }

  /** The stored bytes from `start` on are exactly `data`. */
  ghost predicate Holds(files: seq<File>, contents: seq<seq<byte>>, start: nat, data: seq<byte>) {
    forall i: nat, b: nat :: InFile(Lens(files), i, b) && start <= b < start + |data| ==>
      StoredByte(files, contents, i, b, data[b - start])
  }

  /** Byte `b`, in file `i`, can be read. */
  predicate PresentByte(files: seq<File>, contents: seq<seq<byte>>, i: nat, b: nat)
    requires InFile(Lens(files), i, b)
  {
    files[i].padding || (i < |contents| && b - Offset(Lens(files), i) < |contents[i]|)
  }

  /** The `n` bytes from `start` on can be read: no real file among theirs is too short. */
  ghost predicate Present(files: seq<File>, contents: seq<seq<byte>>, start: nat, n: nat) {
    forall i: nat, b: nat :: InFile(Lens(files), i, b) && start <= b < start + n ==> PresentByte(files, contents, i, b)
  }

  /** Every file is there and none got shorter. */
  ghost predicate Grown(before: seq<seq<byte>>, after: seq<seq<byte>>) {
    |after| == |before| && forall i :: 0 <= i < |before| ==> |before[i]| <= |after[i]|
  }

  lemma PresentGrown(files: seq<File>, before: seq<seq<byte>>, after: seq<seq<byte>>, start: nat, n: nat)
    requires Grown(before, after) && Present(files, before, start, n)
    ensures Present(files, after, start, n)
  {
    forall i: nat, b: nat | InFile(Lens(files), i, b) && start <= b < start + n ensures PresentByte(files, after, i, b) {
      assert PresentByte(files, before, i, b);
    }
  }

  lemma HoldsConcat(files: seq<File>, contents: seq<seq<byte>>, start: nat, d: seq<byte>, e: seq<byte>)
    requires Holds(files, contents, start, d) && Holds(files, contents, start + |d|, e)
    ensures Holds(files, contents, start, d + e)
  {
    forall i: nat, b: nat | InFile(Lens(files), i, b) && start <= b < start + |d + e|
      ensures StoredByte(files, contents, i, b, (d + e)[b - start])
    {
      if b < start + |d| {
        assert (d + e)[b - start] == d[b - start];
      } else {
        assert (d + e)[b - start] == e[b - (start + |d|)];
      }
    }
  }

  /** Each flat byte is the byte of the file that owns it. */
  lemma {:induction false} FlatByte(files: seq<File>, contents: seq<seq<byte>>, n: nat, i: nat, b: nat)
    requires |contents| == |files| && i < n <= |files| && InFile(Lens(files), i, b)
    ensures b < Offset(Lens(files), n)
    ensures Flat(files, contents, n)[b] == FileBytes(files, contents, i)[b - Offset(Lens(files), i)]
    ensures PadMask(files, n)[b] == files[i].padding
  {
    if i < n - 1 {
      FlatByte(files, contents, n - 1, i, b);
    }
  }

  ghost predicate FlatAt(files: seq<File>, contents: seq<seq<byte>>, flat: seq<byte>, mask: seq<bool>, i: nat, b: nat)
    requires i < |files| == |contents| && InFile(Lens(files), i, b)
  {
    && b < |flat| == |mask|
    && flat[b] == FileBytes(files, contents, i)[b - Offset(Lens(files), i)] && mask[b] == files[i].padding
  }

  /** `flat` and `mask`, byte by byte. */
  ghost predicate IsFlat(files: seq<File>, contents: seq<seq<byte>>, flat: seq<byte>, mask: seq<bool>)
    requires |contents| == |files|
  {
    && |flat| == |mask| == TotalLength(Lens(files))
    && forall i: nat, b: nat :: InFile(Lens(files), i, b) ==> FlatAt(files, contents, flat, mask, i, b)
  }

  lemma FlatBytes(files: seq<File>, contents: seq<seq<byte>>)
    requires |contents| == |files|
    ensures IsFlat(files, contents, FlatAll(files, contents), PadMask(files, |files|))
  {
    forall i: nat, b: nat | InFile(Lens(files), i, b)
      ensures FlatAt(files, contents, FlatAll(files, contents), PadMask(files, |files|), i, b)
    {
      FlatByte(files, contents, |files|, i, b);
    }
  }

  lemma StoredIsFlat(files: seq<File>, contents: seq<seq<byte>>, i: nat, b: nat, v: byte)
    requires |contents| == |files| && InFile(Lens(files), i, b)
    ensures b < TotalLength(Lens(files))
    ensures StoredByte(files, contents, i, b, v)
            <==> PresentByte(files, contents, i, b) && FlatAll(files, contents)[b] == v
  {
    FlatByte(files, contents, |files|, i, b);
  }

  /** Bytes are held iff they can be read and are the flat slice. */
  lemma HoldsIsSlice(files: seq<File>, contents: seq<seq<byte>>, start: nat, data: seq<byte>)
    requires |contents| == |files| && start + |data| <= TotalLength(Lens(files))
    ensures Holds(files, contents, start, data)
            <==> Present(files, contents, start, |data|) && data == FlatAll(files, contents)[start..start + |data|]
  {
    if Holds(files, contents, start, data) {
      HeldIsSlice(files, contents, start, data);
    }
    var flat := FlatAll(files, contents);
    if Present(files, contents, start, |data|) && data == flat[start..start + |data|] {
      forall i: nat, b: nat | InFile(Lens(files), i, b) && start <= b < start + |data|
        ensures StoredByte(files, contents, i, b, data[b - start])
      {
        assert PresentByte(files, contents, i, b);
        StoredIsFlat(files, contents, i, b, data[b - start]);
      }
    }
  }

  lemma HeldIsSlice(files: seq<File>, contents: seq<seq<byte>>, start: nat, data: seq<byte>)
    requires |contents| == |files| && start + |data| <= TotalLength(Lens(files)) && Holds(files, contents, start, data)
    ensures Present(files, contents, start, |data|)
    ensures data == FlatAll(files, contents)[start..start + |data|]
  {
    HeldIsPresent(files, contents, start, data);
    forall k | 0 <= k < |data| ensures data[k] == FlatAll(files, contents)[start + k] {
      var i := Owner(Lens(files), |files|, start + k);
      assert StoredByte(files, contents, i, start + k, data[start + k - start]);
      StoredIsFlat(files, contents, i, start + k, data[k]);
    }
  }

  lemma HeldIsPresent(files: seq<File>, contents: seq<seq<byte>>, start: nat, data: seq<byte>)
    requires Holds(files, contents, start, data)
    ensures Present(files, contents, start, |data|)
  {
    forall i: nat, b: nat | InFile(Lens(files), i, b) && start <= b < start + |data|
      ensures PresentByte(files, contents, i, b)
    {
      assert StoredByte(files, contents, i, b, data[b - start]);
    }
  }

  /** A flat array with `data` written at `off`, except where the mask forbids. */
  ghost function Patch(flat: seq<byte>, mask: seq<bool>, off: nat, data: seq<byte>): (r: seq<byte>)
    requires |mask| == |flat|
  {
    seq(|flat|, b requires 0 <= b < |flat| => PatchByte(off, data, b, mask[b], flat[b]))
  }

  function PatchByte(off: nat, data: seq<byte>, b: nat, padding: bool, x: byte): byte {
    if off <= b < off + |data| && !padding then data[b - off] else x
  }

  lemma PadsAreZero(files: seq<File>, contents: seq<seq<byte>>, b: nat)
    requires |contents| == |files| && b < TotalLength(Lens(files))
    ensures PadMask(files, |files|)[b] ==> FlatAll(files, contents)[b] == 0
  {
    var i := Owner(Lens(files), |files|, b);
    FlatByte(files, contents, |files|, i, b);
  }

  /** Write then read: the written range gives the data back with padding as zeros, and every
      range that does not meet it is unchanged. */
  lemma PatchThenSlice(flat: seq<byte>, mask: seq<bool>, off: nat, data: seq<byte>, lo: nat, hi: nat)
    requires |mask| == |flat| && lo <= hi <= |flat| && off + |data| <= |flat|
    requires forall b :: 0 <= b < |flat| && mask[b] ==> flat[b] == 0
    ensures hi <= off || off + |data| <= lo ==> Patch(flat, mask, off, data)[lo..hi] == flat[lo..hi]
    ensures Patch(flat, mask, off, data)[off..off + |data|]
            == seq(|data|, k requires 0 <= k < |data| => if mask[off + k] then 0 else data[k])
  {
    var after := Patch(flat, mask, off, data);
    forall k | 0 <= k < |data| ensures after[off + k] == if mask[off + k] then 0 else data[k] {}
  }
}
