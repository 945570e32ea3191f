/** Content-defined chunking (FastCDC): the cut search and the streaming loop. */
module Chunker {
  import opened Prelude

  const MIN_AVG_SIZE: nat := 1024
  const MAX_AVG_SIZE: nat := 16 * 1024 * 1024
  const ABS_MAX_CHUNK: nat := MAX_AVG_SIZE * 4
  const READ_SIZE: nat := 64 * 1024

  datatype Params = Params(minSize: nat, avgSize: nat, maxSize: nat)

  datatype ParamError = BelowMinimum | AboveMaximum

  /** Size limits derived from an average, refused outside 1 KiB..16 MiB. */
  function FromAvg(avg: nat): (r: Result<Params, ParamError>)
    ensures r.Ok? <==> 1024 <= avg <= 16 * 1024 * 1024
    ensures r.Ok? ==> 0 < r.value.minSize < r.value.avgSize == avg < r.value.maxSize == 4 * avg <= ABS_MAX_CHUNK
    ensures r.Ok? ==> avg - 1 <= 2 * r.value.minSize <= avg
  {
    if avg < MIN_AVG_SIZE then Err(BelowMinimum)
    else if avg > MAX_AVG_SIZE then Err(AboveMaximum)
    else Ok(Params(avg / 2, avg, avg * 4))
  }

  const WORD: nat := 0x1_0000_0000_0000_0000

  /** A 64-bit machine word. */
  type Word = w: nat | w < WORD

  /** The chunker: a gear table, the size limits, and how many low bits of the
      hash must be clear for a cut: more up to the average point, fewer beyond. */
  datatype FastCdc = FastCdc(gear: seq<Word>, params: Params, bitsHard: nat, bitsEasy: nat) {
    ghost predicate Valid() {
      |gear| == 256 && FromAvg(params.avgSize) == Ok(params)
    }
  }

  function Pow2(n: nat): (p: nat)
    ensures p > 0
  {
    if n == 0 then 1 else 2 * Pow2(n - 1)
  }

  lemma {:induction false} Pow2Divides(j: nat, n: nat)
    requires j <= n
    ensures Pow2(n) == Pow2(j) * Pow2(n - j)
    decreases n
  {
    if j == n {
    } else {
      Pow2Divides(j, n - 1);
    }
  }

  /** `b` is the logarithm to base 2 of the square root of `square`, rounded to
      the nearest integer: `b - 1/2 <= log2(sqrt(square)) < b + 1/2`. */
  predicate RoundsTo(square: nat, b: nat) {
    b > 0 && Pow2(2 * b - 1) <= square < Pow2(2 * b + 1)
  }

  function RoundedFrom(square: nat, lo: nat, hi: nat): (b: nat)
    requires 0 < lo <= hi && Pow2(2 * lo - 1) <= square < Pow2(2 * hi + 1)
    ensures lo <= b <= hi && RoundsTo(square, b)
    decreases hi - lo
  {
    if square < Pow2(2 * lo + 1) then lo else RoundedFrom(square, lo + 1, hi)
  }

  lemma {:induction false} Pow2Monotone(j: nat, n: nat)
    requires j <= n
    ensures Pow2(j) <= Pow2(n)
    decreases n
  {
    if j == n {
    } else {
      Pow2Monotone(j, n - 1);
    }
  }

  lemma RoundsToUnique(square: nat, a: nat, b: nat)
    requires RoundsTo(square, a) && RoundsTo(square, b)
    ensures a == b
  {
    if a < b {
      Pow2Monotone(2 * a + 1, 2 * b - 1);
    } else if b < a {
      Pow2Monotone(2 * b + 1, 2 * a - 1);
    }
  }

  const LOG2_MIN_AVG: nat := 10
  const LOG2_MAX_AVG: nat := 24

  lemma AverageInBits(avg: nat)
    requires MIN_AVG_SIZE <= avg <= MAX_AVG_SIZE
    ensures Pow2(2 * LOG2_MIN_AVG - 1) <= avg * avg < Pow2(2 * LOG2_MAX_AVG + 1)
  {
    assert Pow2(9) == 512 && Pow2(10) == 1024;
    Pow2Divides(10, 19);
    Pow2Divides(10, 29);
    Pow2Divides(10, 39);
    Pow2Divides(10, 49);
    SquareMonotone(MIN_AVG_SIZE, avg);
    SquareMonotone(avg, MAX_AVG_SIZE);
  }

  lemma SquareMonotone(a: nat, b: nat)
    requires a <= b
    ensures a * a <= b * b
  {
    assert a * a <= a * b <= b * b;
  }

  /** The base-2 logarithm of the average, rounded to the nearest integer. */
  function RoundedLog2(avg: nat): (b: nat)
    requires MIN_AVG_SIZE <= avg <= MAX_AVG_SIZE
    ensures LOG2_MIN_AVG <= b <= LOG2_MAX_AVG && RoundsTo(avg * avg, b)
  {
    AverageInBits(avg);
    RoundedFrom(avg * avg, LOG2_MIN_AVG, LOG2_MAX_AVG)
  }

  /** The chunker for a gear table and accepted parameters: two bits more than
      the rounded logarithm up to the average point, two fewer beyond it. */
  function NewCdc(gear: seq<Word>, params: Params): FastCdc
    requires FromAvg(params.avgSize) == Ok(params)
  {
    FastCdc(gear, params, RoundedLog2(params.avgSize) + 2, RoundedLog2(params.avgSize) - 2)
  }

  /** One step of the rolling gear hash: shift left by one and add, both
      wrapping around at 64 bits. */
  function RollStep(gear: seq<Word>, h: Word, b: Byte): Word
    requires |gear| == 256
  {
    (2 * h + gear[b as int]) % WORD
  }

  /** The rolling hash over `buf[minSize..i]`: the first `minSize` bytes are
      never scanned. */
  function HashAt(cdc: FastCdc, buf: Bytes, i: nat): Word
    requires cdc.Valid() && i <= |buf|
  {
    if i <= cdc.params.minSize then 0 else RollStep(cdc.gear, HashAt(cdc, buf, i - 1), buf[i - 1])
  }

  /** Masking a word with `bits` low one-bits gives zero exactly when the word is
      a multiple of two to that power. */
  predicate Hits(hash: Word, bits: nat) {
    hash % Pow2(bits) == 0
  }

  /** Whether content allows a cut after the first `q` bytes: the hash of the
      bytes since `minSize` has its low bits clear, more of them up to the
      average point than beyond it. */
  predicate Boundary(cdc: FastCdc, buf: Bytes, q: nat)
    requires cdc.Valid() && cdc.params.minSize < q <= |buf|
  {
    Hits(HashAt(cdc, buf, q), if q <= cdc.params.avgSize then cdc.bitsHard else cdc.bitsEasy)
  }

  function Limit(cdc: FastCdc, buf: Bytes): nat {
    if |buf| < cdc.params.maxSize then |buf| else cdc.params.maxSize
  }

  /** `e` is the cut of `buf`: the earliest boundary past `minSize`, or the
      hard limit when there is none before it. */
  ghost predicate IsCut(cdc: FastCdc, buf: Bytes, e: nat)
    requires cdc.Valid()
  {
    if |buf| <= cdc.params.minSize then e == |buf|
    else
      && cdc.params.minSize < e <= Limit(cdc, buf)
      && (e == Limit(cdc, buf) || Boundary(cdc, buf, e))
      && forall q: nat :: cdc.params.minSize < q < e ==> !Boundary(cdc, buf, q)
  }

  /** The earliest boundary beyond length `i`, or the limit. */
  function FirstBoundary(cdc: FastCdc, buf: Bytes, i: nat): (e: nat)
    requires cdc.Valid() && cdc.params.minSize <= i <= Limit(cdc, buf)
    ensures i <= e <= Limit(cdc, buf)
    ensures e == Limit(cdc, buf) || (i < e && Boundary(cdc, buf, e))
    ensures forall q: nat :: i < q < e ==> !Boundary(cdc, buf, q)
    decreases Limit(cdc, buf) - i
  {
    if i == Limit(cdc, buf) then i
    else if Boundary(cdc, buf, i + 1) then i + 1
    else FirstBoundary(cdc, buf, i + 1)
  }

  function CutLen(cdc: FastCdc, buf: Bytes): (e: nat)
    requires cdc.Valid()
    ensures IsCut(cdc, buf, e)
    ensures e <= |buf| && e <= cdc.params.maxSize && (buf != [] ==> 0 < e)
  {
    if |buf| <= cdc.params.minSize then |buf| else FirstBoundary(cdc, buf, cdc.params.minSize)
  }

  /** A buffer has at most one cut. */
  lemma CutUnique(cdc: FastCdc, buf: Bytes, e: nat)
    requires cdc.Valid() && IsCut(cdc, buf, e)
    ensures e == CutLen(cdc, buf)
  {
  }

  /** The two-loop search for the next cut point at the front of `buf`. */
  method Cut(cdc: FastCdc, buf: Bytes) returns (e: nat)
    requires cdc.Valid()
    ensures e == CutLen(cdc, buf)
  {
    var len := |buf|;
    if len <= cdc.params.minSize {
      return len;
    }
    var limit := if len < cdc.params.maxSize then len else cdc.params.maxSize;
    var normal := if cdc.params.avgSize < limit then cdc.params.avgSize else limit;
    var hash: Word := 0;
    for i := cdc.params.minSize to normal
      invariant hash == HashAt(cdc, buf, i)
      invariant FirstBoundary(cdc, buf, i) == CutLen(cdc, buf)
    {
      hash := RollStep(cdc.gear, hash, buf[i]);
      if Hits(hash, cdc.bitsHard) {
        return i + 1;
      }
    }
    for i := normal to limit
      invariant hash == HashAt(cdc, buf, i)
      invariant FirstBoundary(cdc, buf, i) == CutLen(cdc, buf)
    {
      hash := RollStep(cdc.gear, hash, buf[i]);
      if Hits(hash, cdc.bitsEasy) {
        return i + 1;
      }
    }
    return limit;
  }

  /** The reference chunker: cut the whole remaining input, then recurse. */
  function Chunks(cdc: FastCdc, s: Bytes): (cs: seq<Bytes>)
    requires cdc.Valid()
    ensures s != [] ==> |cs| > 0
    decreases |s|
  {
    if s == [] then [] else
    var e := CutLen(cdc, s);
    [s[..e]] + Chunks(cdc, s[e..])
  }

  lemma {:induction false} HashDependsOnPrefix(cdc: FastCdc, buf: Bytes, other: Bytes, i: nat)
    requires cdc.Valid() && i <= |buf| && i <= |other| && buf[..i] == other[..i]
    ensures HashAt(cdc, buf, i) == HashAt(cdc, other, i)
  {
    if i <= cdc.params.minSize {
    } else {
      assert buf[..i][..i - 1] == buf[..i - 1] && other[..i][..i - 1] == other[..i - 1];
      assert buf[..i][i - 1] == other[..i][i - 1];
      HashDependsOnPrefix(cdc, buf, other, i - 1);
    }
  }

  /** A cut only looks at the first `maxSize` bytes, so a buffer that holds that
      much of the input (or all of it) is cut like the input itself. */
  lemma CutSeesFullHorizon(cdc: FastCdc, buf: Bytes, ahead: Bytes)
    requires cdc.Valid()
    requires |buf| >= cdc.params.maxSize || ahead == []
    ensures CutLen(cdc, buf) == CutLen(cdc, buf + ahead)
  {
    var s := buf + ahead;
    var e := CutLen(cdc, buf);
    if ahead == [] {
      assert s == buf;
    } else {
      forall q: nat | cdc.params.minSize < q <= e
        ensures Boundary(cdc, buf, q) == Boundary(cdc, s, q)
      {
        HashDependsOnPrefix(cdc, buf, s, q);
      }
      assert IsCut(cdc, s, e);
      CutUnique(cdc, s, e);
    }
  }

  /** Cutting the buffered window yields the next chunk of the whole input. */
  lemma CutWindow(cdc: FastCdc, chunks: seq<Bytes>, buf: Bytes, ahead: Bytes)
    requires cdc.Valid() && buf != []
    requires |buf| >= cdc.params.maxSize || ahead == []
    ensures var e := CutLen(cdc, buf);
      chunks + Chunks(cdc, buf + ahead) == (chunks + [buf[..e]]) + Chunks(cdc, buf[e..] + ahead)
  {
    NextChunk(cdc, buf, ahead);
    Regroup(chunks, buf[..CutLen(cdc, buf)], Chunks(cdc, buf[CutLen(cdc, buf)..] + ahead));
  }

  lemma Regroup(front: seq<Bytes>, x: Bytes, back: seq<Bytes>)
    ensures front + ([x] + back) == (front + [x]) + back
  {
  }

  lemma NextChunk(cdc: FastCdc, buf: Bytes, ahead: Bytes)
    requires cdc.Valid() && buf != []
    requires |buf| >= cdc.params.maxSize || ahead == []
    ensures var e := CutLen(cdc, buf);
      Chunks(cdc, buf + ahead) == [buf[..e]] + Chunks(cdc, buf[e..] + ahead)
  {
    var e := CutLen(cdc, buf);
    CutSeesFullHorizon(cdc, buf, ahead);
    assert (buf + ahead)[..e] == buf[..e];
    assert (buf + ahead)[e..] == buf[e..] + ahead;
  }

  /** The size of the next read, if that much is left: any size from one byte up
      to the read buffer's. */
  function NextSize(sizes: seq<nat>): (n: nat)
    ensures 0 < n <= READ_SIZE
  {
    if sizes == [] || sizes[0] > READ_SIZE then READ_SIZE else if sizes[0] == 0 then 1 else sizes[0]
  }

  function LaterSizes(sizes: seq<nat>): seq<nat> {
    if sizes == [] then [] else sizes[1..]
  }

  /** How many bytes are buffered when a fill stops that starts with `have` of
      them and `left` still to read. */
  function FillTo(have: nat, left: nat, sizes: seq<nat>, max: nat): nat
    decreases left
  {
    if have >= max || left == 0 then have
    else
      var n := if NextSize(sizes) < left then NextSize(sizes) else left;
      FillTo(have + n, left - n, LaterSizes(sizes), max)
  }

  /** An input stream. Each read returns some non-empty prefix of what remains, of
      a size that the stream alone decides, and nothing once it is exhausted. */
  class Reader {
    var remaining: Bytes
    var sizes: seq<nat>

    constructor (data: Bytes, sizes: seq<nat>)
      ensures remaining == data && this.sizes == sizes
    {
      remaining, this.sizes := data, sizes;
    }

    method Read() returns (bytes: Bytes)
      modifies this
      ensures old(remaining) == bytes + remaining
      ensures |bytes| == if NextSize(old(sizes)) < |old(remaining)| then NextSize(old(sizes)) else |old(remaining)|
      ensures sizes == LaterSizes(old(sizes))
      ensures bytes == [] <==> old(remaining) == []
    {
      var n := if NextSize(sizes) < |remaining| then NextSize(sizes) else |remaining|;
      bytes, remaining := remaining[..n], remaining[n..];
      sizes := LaterSizes(sizes);
    }
  }

  /** The fill loop of the stream: tops the window up to `maxSize` bytes or to
      the end of input, hashing every byte as it arrives. */
  method FillWindow(reader: Reader, cdc: FastCdc, buf0: Bytes, hashed0: Bytes, eof0: bool)
    returns (buf: Bytes, hashed: Bytes, eof: bool)
    requires eof0 ==> reader.remaining == []
    requires |buf0| < cdc.params.maxSize + READ_SIZE
    modifies reader
    ensures buf + reader.remaining == buf0 + old(reader.remaining)
    ensures hashed + reader.remaining == hashed0 + old(reader.remaining)
    ensures |buf| >= cdc.params.maxSize || (eof && reader.remaining == [])
    ensures eof ==> reader.remaining == []
    ensures |buf| < cdc.params.maxSize + READ_SIZE
    ensures !eof0 ==> |buf| == FillTo(|buf0|, |old(reader.remaining)|, old(reader.sizes), cdc.params.maxSize)
  {
    buf, hashed, eof := buf0, hashed0, eof0;
    while !eof && |buf| < cdc.params.maxSize
      invariant buf + reader.remaining == buf0 + old(reader.remaining)
      invariant hashed + reader.remaining == hashed0 + old(reader.remaining)
      invariant eof ==> reader.remaining == []
      invariant |buf| < cdc.params.maxSize + READ_SIZE
      invariant !eof0 ==>
        (FillTo(|buf|, |reader.remaining|, reader.sizes, cdc.params.maxSize)
          == FillTo(|buf0|, |old(reader.remaining)|, old(reader.sizes), cdc.params.maxSize))
      decreases !eof, |reader.remaining|
    {
      var bytes := reader.Read();
      if bytes == [] {
        eof := true;
      } else {
        hashed := hashed + bytes;
        buf := buf + bytes;
      }
    }
  }

  /** Streams a reader through the chunker. Whatever the sizes the reads return,
      the chunks are those of the reference chunker and the digest is that of
      the whole input. `peak` is the largest number of bytes ever buffered: it
      can exceed `maxSize`, because the window is topped up a whole read at a
      time, but by less than one read. */
  method StreamChunks(reader: Reader, cdc: FastCdc)
    returns (chunks: seq<Bytes>, digest: Digest, peak: nat)
    requires cdc.Valid()
    modifies reader
    ensures reader.remaining == []
    ensures chunks == Chunks(cdc, old(reader.remaining))
    ensures digest == Blake3(old(reader.remaining))
    ensures FillTo(0, |old(reader.remaining)|, old(reader.sizes), cdc.params.maxSize) <= peak
    ensures peak < cdc.params.maxSize + 64 * 1024
  {
    ghost var input, sizes := reader.remaining, reader.sizes;
    var buf: Bytes := [];
    var hashed: Bytes := [];
    var eof := false;
    chunks, peak := [], 0;
    while true
      invariant hashed + reader.remaining == input
      invariant eof ==> reader.remaining == []
      invariant |buf| < cdc.params.maxSize + READ_SIZE
      invariant peak < cdc.params.maxSize + READ_SIZE
      invariant FillTo(0, |input|, sizes, cdc.params.maxSize) <= peak
        || (buf == [] && !eof && reader.remaining == input && reader.sizes == sizes)
      invariant chunks + Chunks(cdc, buf + reader.remaining) == Chunks(cdc, input)
      decreases |buf| + |reader.remaining|
    {
      buf, hashed, eof := FillWindow(reader, cdc, buf, hashed, eof);
      peak := if peak < |buf| then |buf| else peak;
      if buf == [] {
        break;
      }
      var e := Cut(cdc, buf);
      CutWindow(cdc, chunks, buf, reader.remaining);
      chunks := chunks + [buf[..e]];
      buf := buf[e..];
    }
    assert buf + reader.remaining == [];
    digest := Blake3(hashed);
  }

  lemma {:induction false} OneByteAtATime(have: nat, left: nat, max: nat)
    requires have < max && left >= max - have + READ_SIZE - 1
    ensures FillTo(have, left, seq(max - 1 - have, _ => 1) + [READ_SIZE], max) == max + READ_SIZE - 1
    decreases max - have
  {
    var sizes := seq(max - 1 - have, _ => 1) + [READ_SIZE];
    if have == max - 1 {
      assert NextSize(sizes) == READ_SIZE;
      assert FillTo(max - 1 + READ_SIZE, left - READ_SIZE, LaterSizes(sizes), max) == max - 1 + READ_SIZE;
    } else {
      assert LaterSizes(sizes) == seq(max - 1 - (have + 1), _ => 1) + [READ_SIZE];
      OneByteAtATime(have + 1, left - 1, max);
    }
  }

  /** The bound is tight: for every input long enough there are read sizes with
      which the very first fill buffers `maxSize` bytes and one read less a byte
      more. */
  lemma BufferExceedsMax(cdc: FastCdc, input: Bytes)
    requires cdc.Valid() && |input| >= cdc.params.maxSize + READ_SIZE - 1
    ensures exists sizes ::
      FillTo(0, |input|, sizes, cdc.params.maxSize) == cdc.params.maxSize + READ_SIZE - 1 > cdc.params.maxSize
  {
    OneByteAtATime(0, |input|, cdc.params.maxSize);
  }
}
