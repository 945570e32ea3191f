/** What the chunker guarantees about its input: every byte is kept, chunk sizes
    are bounded, each cut is decided by a short window of content, and edits
    disturb only the chunks around them. */
module ChunkerTheory {
  import opened Prelude
  import opened Chunker

  // ---------- coverage and sizes ----------

  lemma {:induction false} ChunksConcat(cdc: FastCdc, s: Bytes)
    requires cdc.Valid()
    ensures Concat(Chunks(cdc, s)) == s
    decreases |s|
  {
    if s == [] {
    } else {
      var e := CutLen(cdc, s);
      ChunksConcat(cdc, s[e..]);
      assert Chunks(cdc, s)[1..] == Chunks(cdc, s[e..]);
      assert s[..e] + s[e..] == s;
    }
  }

  lemma {:induction false} ChunkSizes(cdc: FastCdc, s: Bytes, i: nat)
    requires cdc.Valid() && i < |Chunks(cdc, s)|
    ensures 0 < |Chunks(cdc, s)[i]| <= cdc.params.maxSize <= ABS_MAX_CHUNK
    ensures i < |Chunks(cdc, s)| - 1 ==> cdc.params.minSize < |Chunks(cdc, s)[i]|
    decreases |s|
  {
    if s == [] {
    } else {
      var e := CutLen(cdc, s);
      if i == 0 {
        if e == |s| {
          assert s[e..] == [];
        }
      } else {
        ChunkSizes(cdc, s[e..], i - 1);
      }
    }
  }

  // ---------- each cut is decided by a bounded window ----------

  lemma ModUnique(a: int, d: int, q: int, r: int)
    requires 0 <= r < d && a == d * q + r
    ensures a % d == r
  {
    var k := q - a / d;
    assert d * k == a % d - r;
    MultipleIsFar(d, k);
  }

  lemma MultipleIsFar(d: int, k: int)
    requires d > 0
    ensures k >= 1 ==> d * k >= d
    ensures k <= -1 ==> d * k <= -d
  {
  }

  lemma WordIsPow2()
    ensures WORD == Pow2(64)
  {
    Pow2Divides(32, 64);
    assert Pow2(8) == 256;
    Pow2Divides(8, 16);
    Pow2Divides(16, 32);
  }

  lemma ModOfMultiple(x: nat, p: nat, c: nat)
    requires p > 0 && c > 0 && p * c > 0
    ensures (x % (p * c)) % p == x % p
  {
    var q, r := x / (p * c), x % (p * c);
    assert (p * c) * q == p * (c * q);
    assert p * (c * q + r / p) == p * (c * q) + p * (r / p);
    ModUnique(x, p, c * q + r / p, r % p);
  }

  /** Wrapping at 64 bits leaves the low `j` bits alone. */
  lemma WrapKeepsLowBits(x: nat, j: nat)
    requires j <= 64
    ensures (x % WORD) % Pow2(j) == x % Pow2(j)
  {
    WordIsPow2();
    Pow2Divides(j, 64);
    ModOfMultiple(x, Pow2(j), Pow2(64 - j));
  }

  /** One hash step moves agreement one bit further up. */
  lemma StepAgrees(gear: seq<Word>, h: Word, k: Word, b: Byte, j: nat)
    requires |gear| == 256 && j < 64
    requires h % Pow2(j) == k % Pow2(j)
    ensures RollStep(gear, h, b) % Pow2(j + 1) == RollStep(gear, k, b) % Pow2(j + 1)
  {
    var g := gear[b as int];
    WrapKeepsLowBits(2 * h + g, j + 1);
    WrapKeepsLowBits(2 * k + g, j + 1);
    DoubledAgrees(h, k, g, Pow2(j));
  }

  lemma DoubledAgrees(h: nat, k: nat, g: nat, p: nat)
    requires p > 0 && h % p == k % p
    ensures (2 * h + g) % (2 * p) == (2 * k + g) % (2 * p)
  {
    var r := h % p;
    var low := 2 * r + g;
    var q, m := low / (2 * p), low % (2 * p);
    assert 2 * h + g == (2 * p) * (h / p + q) + m by {
      assert h == p * (h / p) + r;
      assert (2 * p) * (h / p + q) == 2 * (p * (h / p)) + (2 * p) * q;
    }
    assert 2 * k + g == (2 * p) * (k / p + q) + m by {
      assert k == p * (k / p) + r;
      assert (2 * p) * (k / p + q) == 2 * (p * (k / p)) + (2 * p) * q;
    }
    ModUnique(2 * h + g, 2 * p, h / p + q, m);
    ModUnique(2 * k + g, 2 * p, k / p + q, m);
  }

  /** Once `m` equal bytes have been scanned, the low `m` bits of the two rolling
      hashes agree, whatever came before. */
  lemma {:induction false} WindowDecidesHash(cdc: FastCdc, a: Bytes, i: nat, b: Bytes, j: nat, m: nat)
    requires cdc.Valid() && m <= 64
    requires cdc.params.minSize + m <= i <= |a| && cdc.params.minSize + m <= j <= |b|
    requires a[i - m..i] == b[j - m..j]
    ensures HashAt(cdc, a, i) % Pow2(m) == HashAt(cdc, b, j) % Pow2(m)
  {
    if m == 0 {
    } else {
      assert a[i - m..i][m - 1] == a[i - 1] && b[j - m..j][m - 1] == b[j - 1];
      assert a[i - m..i][..m - 1] == a[i - m..i - 1] && b[j - m..j][..m - 1] == b[j - m..j - 1];
      WindowDecidesHash(cdc, a, i - 1, b, j - 1, m - 1);
      StepAgrees(cdc.gear, HashAt(cdc, a, i - 1), HashAt(cdc, b, j - 1), a[i - 1], m - 1);
    }
  }

  /** A boundary test looks at no more bytes than the bits it tests (12..26 up to
      the average point, 8..22 beyond): two positions on the same side of that
      point, preceded by that many equal scanned bytes, are boundaries together. */
  lemma WindowDecidesBoundary(gear: seq<Word>, params: Params, a: Bytes, i: nat, b: Bytes, j: nat, m: nat)
    requires FromAvg(params.avgSize) == Ok(params) && |gear| == 256
    requires (i <= params.avgSize) == (j <= params.avgSize)
    requires m == RoundedLog2(params.avgSize) + (if i <= params.avgSize then 2 else -2)
    requires params.minSize + m <= i <= |a| && params.minSize + m <= j <= |b|
    requires a[i - m..i] == b[j - m..j]
    ensures 8 <= m <= 26
    ensures Boundary(NewCdc(gear, params), a, i) == Boundary(NewCdc(gear, params), b, j)
  {
    WindowDecidesHash(NewCdc(gear, params), a, i, b, j, m);
  }

  // ---------- what a cut is, in numbers ----------

  /** The scanned bytes `buf[lo..hi]`, each replaced by its gear value and doubled
      once for every byte after it; no wrapping. */
  function GearSum(gear: seq<Word>, buf: Bytes, lo: nat, hi: nat): nat
    requires |gear| == 256 && hi <= |buf|
    decreases hi - lo
  {
    if lo >= hi then 0 else gear[buf[lo] as int] * Pow2(hi - 1 - lo) + GearSum(gear, buf, lo + 1, hi)
  }

  /** One byte more doubles the sum and adds its gear value. */
  lemma {:induction false} GearSumSnoc(gear: seq<Word>, buf: Bytes, lo: nat, hi: nat)
    requires |gear| == 256 && lo < hi <= |buf|
    ensures GearSum(gear, buf, lo, hi) == 2 * GearSum(gear, buf, lo, hi - 1) + gear[buf[hi - 1] as int]
    decreases hi - lo
  {
    if lo == hi - 1 {
      assert Pow2(0) == 1;
    } else {
      GearSumSnoc(gear, buf, lo + 1, hi);
      assert gear[buf[lo] as int] * Pow2(hi - 1 - lo) == 2 * (gear[buf[lo] as int] * Pow2(hi - 2 - lo));
    }
  }

  lemma DoubleWrapped(x: nat, g: nat)
    ensures (2 * (x % WORD) + g) % WORD == (2 * x + g) % WORD
  {
    var y := 2 * (x % WORD) + g;
    ModUnique(2 * x + g, WORD, 2 * (x / WORD) + y / WORD, y % WORD);
  }

  /** The rolling hash in closed form: that sum over all bytes scanned so far,
      modulo 2^64. */
  lemma {:induction false} HashIsGearSum(cdc: FastCdc, buf: Bytes, i: nat)
    requires cdc.Valid() && i <= |buf|
    ensures HashAt(cdc, buf, i) == GearSum(cdc.gear, buf, cdc.params.minSize, i) % 0x1_0000_0000_0000_0000
  {
    if i <= cdc.params.minSize {
    } else {
      HashIsGearSum(cdc, buf, i - 1);
      GearSumSnoc(cdc.gear, buf, cdc.params.minSize, i);
      DoubleWrapped(GearSum(cdc.gear, buf, cdc.params.minSize, i - 1), cdc.gear[buf[i - 1] as int]);
    }
  }

  /** Content lets a chunk end after `q` bytes: the sum over the bytes past the
      minimum is divisible by a power of two, four times the rounded average up to
      the average point and a quarter of it beyond. */
  ghost predicate Divides(gear: seq<Word>, params: Params, buf: Bytes, q: nat)
    requires |gear| == 256 && FromAvg(params.avgSize) == Ok(params) && q <= |buf|
  {
    var b := RoundedLog2(params.avgSize);
    GearSum(gear, buf, params.minSize, q) % Pow2(if q <= params.avgSize then b + 2 else b - 2) == 0
  }

  lemma BoundaryIsDivisibility(gear: seq<Word>, params: Params, buf: Bytes, q: nat)
    requires |gear| == 256 && FromAvg(params.avgSize) == Ok(params) && params.minSize < q <= |buf|
    ensures Boundary(NewCdc(gear, params), buf, q) <==> Divides(gear, params, buf, q)
  {
    var b := RoundedLog2(params.avgSize);
    HashIsGearSum(NewCdc(gear, params), buf, q);
    WrapKeepsLowBits(GearSum(gear, buf, params.minSize, q), if q <= params.avgSize then b + 2 else b - 2);
  }

  /** The cut, in numbers: everything if there is no more than the minimum; otherwise
      the first length past the minimum at which content divides, or four times the
      average, or the end, whichever comes first. */
  lemma CutIsFirstDivision(gear: seq<Word>, params: Params, buf: Bytes, e: nat)
    requires |gear| == 256 && FromAvg(params.avgSize) == Ok(params)
    ensures e == CutLen(NewCdc(gear, params), buf) <==>
      if |buf| <= params.minSize then e == |buf|
      else
        && params.minSize < e <= |buf| && e <= 4 * params.avgSize
        && (e == |buf| || e == 4 * params.avgSize || Divides(gear, params, buf, e))
        && forall q :: params.minSize < q < e ==> !Divides(gear, params, buf, q)
  {
    var cdc := NewCdc(gear, params);
    forall q: nat | params.minSize < q <= |buf|
      ensures Boundary(cdc, buf, q) <==> Divides(gear, params, buf, q)
    {
      BoundaryIsDivisibility(gear, params, buf, q);
    }
    if IsCut(cdc, buf, e) {
      CutUnique(cdc, buf, e);
    }
  }

  // ---------- edits are local ----------

  /** A cut that is not forced by the end of the input survives any change, or
      truncation, at or after it. */
  lemma CutSurvivesEdit(cdc: FastCdc, s: Bytes, t: Bytes)
    requires cdc.Valid()
    requires CutLen(cdc, s) < |s| && CutLen(cdc, s) <= |t|
    requires s[..CutLen(cdc, s)] == t[..CutLen(cdc, s)]
    ensures CutLen(cdc, t) == CutLen(cdc, s)
  {
    var e := CutLen(cdc, s);
    forall q: nat | cdc.params.minSize < q <= e
      ensures Boundary(cdc, s, q) == Boundary(cdc, t, q)
    {
      assert s[..e][..q] == s[..q] && t[..e][..q] == t[..q];
      HashDependsOnPrefix(cdc, s, t, q);
    }
    assert IsCut(cdc, t, e);
    CutUnique(cdc, t, e);
  }

  lemma TakeCons(head: Bytes, tail: seq<Bytes>, n: nat)
    requires 0 < n <= |tail| + 1
    ensures ([head] + tail)[..n] == [head] + tail[..n - 1]
    ensures Concat(([head] + tail)[..n]) == head + Concat(tail[..n - 1])
    ensures ([head] + tail)[n..] == tail[n - 1..]
  {
    assert ([head] + tail)[..n] == [head] + tail[..n - 1];
    assert ([head] + tail[..n - 1])[1..] == tail[..n - 1];
  }

  lemma SamePrefixAfter(s: Bytes, t: Bytes, e: nat, p: nat)
    requires e <= p <= |s| && p <= |t| && s[..p] == t[..p]
    ensures s[..e] == t[..e] && s[e..][..p - e] == t[e..][..p - e]
  {
    assert s[..p][..e] == s[..e] && t[..p][..e] == t[..e];
    assert s[..p][e..] == s[e..][..p - e] && t[..p][e..] == t[e..][..p - e];
  }

  /** Any edit at or after offset `p` keeps every non-final chunk that ends at or
      before `p`: the first `n` chunks are the same in both versions. */
  lemma {:induction false} EditLocality(cdc: FastCdc, s: Bytes, t: Bytes, p: nat, n: nat)
    requires cdc.Valid()
    requires p <= |s| && p <= |t| && s[..p] == t[..p]
    requires n < |Chunks(cdc, s)|
    requires |Concat(Chunks(cdc, s)[..n])| <= p
    ensures n <= |Chunks(cdc, t)| && Chunks(cdc, t)[..n] == Chunks(cdc, s)[..n]
    decreases n
  {
    if n == 0 {
    } else {
      var e := CutLen(cdc, s);
      TakeCons(s[..e], Chunks(cdc, s[e..]), n);
      NonFinalCutIsProper(cdc, s);
      SamePrefixAfter(s, t, e, p);
      CutSurvivesEdit(cdc, s, t);
      EditLocality(cdc, s[e..], t[e..], p - e, n - 1);
      TakeCons(t[..e], Chunks(cdc, t[e..]), n);
    }
  }

  lemma NonFinalCutIsProper(cdc: FastCdc, s: Bytes)
    requires cdc.Valid() && |Chunks(cdc, s)| > 1
    ensures CutLen(cdc, s) < |s|
  {
    assert s[|s|..] == [];
  }

  /** From a chunk boundary on, chunking forgets everything before it. */
  lemma {:induction false} ChunksAfterBoundary(cdc: FastCdc, s: Bytes, n: nat)
    requires cdc.Valid() && n <= |Chunks(cdc, s)|
    ensures Concat(Chunks(cdc, s)[..n]) <= s
    ensures Chunks(cdc, s)[n..] == Chunks(cdc, s[|Concat(Chunks(cdc, s)[..n])|..])
    decreases n
  {
    if n == 0 {
      assert s[0..] == s;
    } else {
      var e := CutLen(cdc, s);
      ChunksAfterBoundary(cdc, s[e..], n - 1);
      TakeCons(s[..e], Chunks(cdc, s[e..]), n);
      PrefixThenRest(s, e, Concat(Chunks(cdc, s[e..])[..n - 1]));
    }
  }

  lemma PrefixThenRest(s: Bytes, e: nat, head: Bytes)
    requires e <= |s| && head <= s[e..]
    ensures s[..e] + head <= s && s[|s[..e] + head|..] == s[e..][|head|..]
  {
  }

  /** Two streams that share a suffix and both have a chunk boundary at its start
      produce the same chunks from there on. */
  lemma Resynchronize(cdc: FastCdc, x: Bytes, y: Bytes, suffix: Bytes, n: nat, m: nat)
    requires cdc.Valid()
    requires n <= |Chunks(cdc, x + suffix)| && Concat(Chunks(cdc, x + suffix)[..n]) == x
    requires m <= |Chunks(cdc, y + suffix)| && Concat(Chunks(cdc, y + suffix)[..m]) == y
    ensures Chunks(cdc, x + suffix)[n..] == Chunks(cdc, y + suffix)[m..]
  {
    ChunksAfterBoundary(cdc, x + suffix, n);
    ChunksAfterBoundary(cdc, y + suffix, m);
    assert (x + suffix)[|x|..] == suffix && (y + suffix)[|y|..] == suffix;
  }
}
