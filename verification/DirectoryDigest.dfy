/**
  The byte stream that a directory digest hashes: per file an 8-byte big-endian path length, the path bytes and
  the 32 bytes of the file's own SHA-256. The stream is uniquely decodable, so two directories that feed the
  hash the same bytes are the same directory.
 */
module DirectoryDigest {
  import opened Common

  newtype Byte = x: int | 0 <= x < 256

  type Bytes = seq<Byte>

  datatype File = File(path: Bytes, content: Bytes)

  /** What the stream records of a file: its path and the hash of its bytes. */
  datatype Entry = Entry(path: Bytes, digest: Bytes)

  const DIGEST_LENGTH := 32
  const LENGTH_BYTES := 8

  datatype Digest = Stream(bytes: Bytes) | NoFiles | PathTooLong

  // ---- big-endian lengths -------------------------------------------------

  function Pow256(k: nat): int {
    if k == 0 then 1 else 256 * Pow256(k - 1)
  }

  /** `n.to_bytes(k, "big")`, for an `n` that fits. */
  function BigEndian(n: nat, k: nat): Bytes {
    if k == 0 then [] else BigEndian(n / 256, k - 1) + [(n % 256) as Byte]
  }

  function FromBigEndian(b: Bytes): nat {
    if b == [] then 0 else 256 * FromBigEndian(b[..|b| - 1]) + b[|b| - 1] as int
  }

  lemma {:induction false} BigEndianRoundTrip(n: nat, k: nat)
    requires n < Pow256(k)
    ensures |BigEndian(n, k)| == k && FromBigEndian(BigEndian(n, k)) == n
  {
    if k == 0 {
    } else {
      BigEndianRoundTrip(n / 256, k - 1);
      var high := BigEndian(n / 256, k - 1);
      assert BigEndian(n, k)[..k - 1] == high;
    }
  }

  lemma {:induction false} FromBigEndianRoundTrip(b: Bytes)
    ensures FromBigEndian(b) < Pow256(|b|) && BigEndian(FromBigEndian(b), |b|) == b
  {
    if b == [] {
    } else {
      FromBigEndianRoundTrip(b[..|b| - 1]);
      assert b == b[..|b| - 1] + [b[|b| - 1]];
    }
  }

  lemma {:induction false} Pow256Positive(k: nat)
    ensures Pow256(k) >= 1
  {
    if k > 0 {
      Pow256Positive(k - 1);
    }
  }

  /** The most significant byte comes first: byte `i` of `k` counts multiples of 256 to the power `k - 1 - i`. */
  lemma {:induction false} BigEndianByte(n: nat, k: nat, i: nat)
    requires i < k
    ensures Pow256(k - 1 - i) >= 1 && |BigEndian(n, k)| == k
    ensures BigEndian(n, k)[i] as int == n / Pow256(k - 1 - i) % 256
  {
    Pow256Positive(k - 1 - i);
    BigEndianLength(n, k);
    if i == k - 1 {
      assert Pow256(0) == 1;
    } else {
      BigEndianByte(n / 256, k - 1, i);
      DivideTwice(n, 256, Pow256(k - 2 - i));
    }
  }

  lemma {:induction false} BigEndianLength(n: nat, k: nat)
    ensures |BigEndian(n, k)| == k
  {
    if k > 0 {
      BigEndianLength(n / 256, k - 1);
    }
  }

  lemma DivideTwice(n: nat, a: nat, b: nat)
    requires a > 0 && b > 0
    ensures a * b > 0 && n / a / b == n / (a * b)
  {
    var q, r := n / a / b, n / a % b;
    assert n / a == b * q + r;
    assert n == a * (b * q + r) + n % a;
    var rest := a * r + n % a;
    assert n == (a * b) * q + rest;
    RestInRange(a, b, r, n % a);
    DivModUnique(a * b, n, q, rest);
  }

  lemma RestInRange(a: nat, b: nat, r: nat, s: nat)
    requires r < b && s < a
    ensures a * b > 0 && 0 <= a * r + s < a * b
  {
    MultipleBound(a, b - r);
    assert a * b == a * r + a * (b - r);
  }

  // ---- the stream -----------------------------------------------------------

  ghost predicate Fits(path: Bytes) {
    |path| < Pow256(LENGTH_BYTES)
  }

  ghost predicate WellFormed(entries: seq<Entry>) {
    forall e :: e in entries ==> Fits(e.path) && |e.digest| == DIGEST_LENGTH
  }

  function EncodeEntry(e: Entry): Bytes {
    BigEndian(|e.path|, LENGTH_BYTES) + e.path + e.digest
  }

  function Encode(entries: seq<Entry>): Bytes {
    if entries == [] then [] else EncodeEntry(entries[0]) + Encode(entries[1..])
  }

  function EntryOf(sha256: Bytes -> Bytes, file: File): Entry {
    Entry(file.path, sha256(file.content))
  }

  function Entries(sha256: Bytes -> Bytes, files: seq<File>): seq<Entry> {
    seq(|files|, i requires 0 <= i < |files| => EntryOf(sha256, files[i]))
  }

  /** A decoder for the stream; `None` when the bytes are not the stream of any directory. */
  function Decode(stream: Bytes): Option<seq<Entry>>
    decreases |stream|
  {
    if stream == [] then Some([])
    else if |stream| < LENGTH_BYTES then None
    else
      var n := FromBigEndian(stream[..LENGTH_BYTES]);
      var end := LENGTH_BYTES + n + DIGEST_LENGTH;
      if |stream| < end then None
      else
        var e := Entry(stream[LENGTH_BYTES..LENGTH_BYTES + n], stream[LENGTH_BYTES + n..end]);
        match Decode(stream[end..])
        case Some(rest) => Some([e] + rest)
        case None => None
  }

  /**
    The digest loop: every update appends to the hashed stream. The files come in sorted path order; an empty
    directory is an error, and so is a path whose length does not fit eight bytes.
   */
  method HashDirectory(sha256: Bytes -> Bytes, files: seq<File>) returns (r: Digest)
    ensures r.NoFiles? <==> files == []
    ensures r.PathTooLong? <==> exists f :: f in files && !Fits(f.path)
    ensures r.Stream? ==> r.bytes == Encode(Entries(sha256, files))
  {
    if files == [] {
      return NoFiles;
    }
    var stream: Bytes := [];
    assert Pow256(LENGTH_BYTES) == 0x1_0000_0000_0000_0000 by { LengthLimit(); }
    for i := 0 to |files|
      invariant forall f :: f in files[..i] ==> Fits(f.path)
      invariant stream == Encode(Entries(sha256, files[..i]))
    {
      if |files[i].path| >= 0x1_0000_0000_0000_0000 {
        return PathTooLong;
      }
      stream := stream + BigEndian(|files[i].path|, LENGTH_BYTES);
      stream := stream + files[i].path;
      stream := stream + sha256(files[i].content);
      var e := EntryOf(sha256, files[i]);
      EncodeAppend(Entries(sha256, files[..i]), [e]);
      assert Encode([e]) == EncodeEntry(e) + Encode([]);
      assert files[..i + 1] == files[..i] + [files[i]];
      assert Entries(sha256, files[..i + 1])
          == Entries(sha256, files[..i]) + [e];
    }
    assert files[..|files|] == files;
    r := Stream(stream);
  }

  lemma LengthLimit()
    ensures Pow256(8) == 0x1_0000_0000_0000_0000
  {
    assert Pow256(2) == 0x1_0000;
    assert Pow256(4) == 256 * (256 * Pow256(2));
    assert Pow256(6) == 256 * (256 * Pow256(4));
  }

  lemma {:induction false} EncodeAppend(a: seq<Entry>, b: seq<Entry>)
    ensures Encode(a + b) == Encode(a) + Encode(b)
  {
    if a == [] {
      assert a + b == b;
    } else {
      assert (a + b)[1..] == a[1..] + b;
      EncodeAppend(a[1..], b);
    }
  }

  // ---- unique decodability ----------------------------------------------------

  /** Decoding a stream returns exactly the entries that were encoded. */
  lemma {:induction false} DecodeEncode(entries: seq<Entry>)
    requires WellFormed(entries)
    ensures Decode(Encode(entries)) == Some(entries)
  {
    if entries == [] {
    } else {
      var e, rest := entries[0], entries[1..];
      DecodeEncode(rest);
      assert Fits(e.path) && |e.digest| == DIGEST_LENGTH by { assert e in entries; }
      BigEndianRoundTrip(|e.path|, LENGTH_BYTES);
      var size := BigEndian(|e.path|, LENGTH_BYTES);
      var stream := Encode(entries);
      var end := LENGTH_BYTES + |e.path| + DIGEST_LENGTH;
      assert stream == size + e.path + e.digest + Encode(rest);
      FourParts(size, e.path, e.digest, Encode(rest));
      hide Encode, BigEndian, FromBigEndian;
      assert entries == [e] + rest;
    }
  }

  lemma FourParts(a: Bytes, b: Bytes, c: Bytes, d: Bytes)
    ensures var s := a + b + c + d;
            s[..|a|] == a && s[|a|..|a| + |b|] == b && s[|a| + |b|..|a| + |b| + |c|] == c && s[|a| + |b| + |c|..] == d
  {
  }

  /** The decoder accepts nothing else: whatever it accepts is the encoding of what it returns. */
  lemma {:induction false} EncodeDecode(stream: Bytes)
    requires Decode(stream).Some?
    ensures WellFormed(Decode(stream).value) && Encode(Decode(stream).value) == stream
    decreases |stream|
  {
    if stream == [] {
    } else {
      var size := stream[..LENGTH_BYTES];
      var n := FromBigEndian(size);
      var end := LENGTH_BYTES + n + DIGEST_LENGTH;
      EncodeDecode(stream[end..]);
      FromBigEndianRoundTrip(size);
      var path, digest := stream[LENGTH_BYTES..LENGTH_BYTES + n], stream[LENGTH_BYTES + n..end];
      var rest := Decode(stream[end..]).value;
      var e := Entry(path, digest);
      assert Decode(stream) == Some([e] + rest);
      hide FromBigEndian, Decode, BigEndian;
      EncodeFirst(e, rest);
      assert EncodeEntry(e) == size + path + digest;
      CutInFour(stream, LENGTH_BYTES, LENGTH_BYTES + n, end);
    }
  }

  lemma EncodeFirst(e: Entry, rest: seq<Entry>)
    ensures Encode([e] + rest) == EncodeEntry(e) + Encode(rest)
    ensures WellFormed(rest) && Fits(e.path) && |e.digest| == DIGEST_LENGTH ==> WellFormed([e] + rest)
  {
    assert ([e] + rest)[1..] == rest;
  }

  lemma CutInFour(s: Bytes, i: nat, j: nat, k: nat)
    requires i <= j <= k <= |s|
    ensures s == s[..i] + s[i..j] + s[j..k] + s[k..]
  {
  }

  ghost predicate CollisionFree(sha256: Bytes -> Bytes, a: seq<File>, b: seq<File>) {
    forall f, g :: (f in a || f in b) && (g in a || g in b) && sha256(f.content) == sha256(g.content) ==>
      f.content == g.content
  }

  /** Equal hashed streams mean equal directories, file by file. */
  lemma EqualStreamsEqualTrees(sha256: Bytes -> Bytes, a: seq<File>, b: seq<File>)
    requires forall x :: |sha256(x)| == DIGEST_LENGTH
    requires CollisionFree(sha256, a, b)
    requires forall f :: f in a || f in b ==> Fits(f.path)
    requires Encode(Entries(sha256, a)) == Encode(Entries(sha256, b))
    ensures a == b
  {
    var ea, eb := Entries(sha256, a), Entries(sha256, b);
    DecodeEncode(ea);
    DecodeEncode(eb);
    assert ea == eb;
    forall i | 0 <= i < |a| ensures a[i] == b[i] {
      assert ea[i] == EntryOf(sha256, a[i]) && eb[i] == EntryOf(sha256, b[i]);
      assert a[i] in a && b[i] in b;
    }
  }
}
