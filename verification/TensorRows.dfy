/**
  The query/key row reordering between the checkpoint and the GGUF file, and the chunked comparison.

  A row is any value; a tensor is the sequence of its leading-axis rows in C order.
 */
module TensorRows {
  import opened Common

  // ---- reshape and swapaxes, as nested sequences ---------------------------

  /** C-order split of a sequence into `count` consecutive pieces of `width` elements. */
  function Chunks<T>(s: seq<T>, count: nat, width: nat): (r: seq<seq<T>>)
    requires |s| == count * width
    ensures |r| == count && forall k :: 0 <= k < count ==> |r[k]| == width
  {
    if count == 0 then []
    else
      PeelChunk(count, width);
      [s[..width]] + Chunks(s[width..], count - 1, width)
  }

  lemma PeelChunk(count: nat, width: nat)
    requires count > 0
    ensures width <= count * width && count * width - width == (count - 1) * width
  {
  }

  /** C-order `reshape(a, b, c)` of the leading axis. */
  function Split3<T>(rows: seq<T>, a: nat, b: nat, c: nat): (t: seq<seq<seq<T>>>)
    requires |rows| == a * b * c
  {
    Chunks(Chunks(rows, a * b, c), a, b)
  }

  ghost predicate Shaped<T>(t: seq<seq<seq<T>>>, a: nat, b: nat, c: nat) {
    |t| == a
    && (forall h :: 0 <= h < |t| ==> |t[h]| == b)
    && (forall h, i :: 0 <= h < |t| && 0 <= i < |t[h]| ==> |t[h][i]| == c)
  }

  /** `swapaxes(1, 2)`. */
  function SwapInner<T>(t: seq<seq<seq<T>>>, a: nat, b: nat, c: nat): (r: seq<seq<seq<T>>>)
    requires Shaped(t, a, b, c)
    ensures Shaped(r, a, c, b)
    ensures forall h, j, i :: 0 <= h < a && 0 <= j < c && 0 <= i < b ==> r[h][j][i] == t[h][i][j]
  {
    seq(a, h requires 0 <= h < a =>
      seq(c, j requires 0 <= j < c =>
        seq(b, i requires 0 <= i < b => t[h][i][j])))
  }

  /** C-order `reshape` back to the leading axis. */
  function Merge3<T>(t: seq<seq<seq<T>>>): seq<T> {
    Flatten(Flatten(t))
  }

  lemma {:induction false} FlattenChunks<T>(s: seq<T>, count: nat, width: nat)
    requires |s| == count * width
    ensures Flatten(Chunks(s, count, width)) == s
  {
    if count == 0 {
    } else {
      PeelChunk(count, width);
      FlattenChunks(s[width..], count - 1, width);
    }
  }

  lemma {:induction false} ChunksFlatten<T>(t: seq<seq<T>>, width: nat)
    requires forall k :: 0 <= k < |t| ==> |t[k]| == width
    ensures |Flatten(t)| == |t| * width
    ensures Chunks(Flatten(t), |t|, width) == t
  {
    if t == [] {
    } else {
      hide Flatten, Chunks;
      PeelChunk(|t|, width);
      ChunksFlatten(t[1..], width);
      FlattenCut(t);
      ChunksPeel(Flatten(t), |t|, width);
      assert t == [t[0]] + t[1..];
    }
  }

  lemma ChunksPeel<T>(s: seq<T>, count: nat, width: nat)
    requires count > 0 && |s| == count * width
    ensures width <= |s| && |s[width..]| == (count - 1) * width
    ensures Chunks(s, count, width) == [s[..width]] + Chunks(s[width..], count - 1, width)
  {
    PeelChunk(count, width);
  }

  lemma FlattenCut<T>(t: seq<seq<T>>)
    requires t != []
    ensures |Flatten(t)| == |t[0]| + |Flatten(t[1..])|
    ensures Flatten(t)[..|t[0]|] == t[0] && Flatten(t)[|t[0]|..] == Flatten(t[1..])
  {
  }

  lemma {:induction false} ChunkAt<T>(s: seq<T>, count: nat, width: nat, k: nat, j: nat)
    requires |s| == count * width && k < count && j < width
    ensures 0 <= k * width + j < |s|
    ensures Chunks(s, count, width)[k][j] == s[k * width + j]
  {
    PeelChunk(count, width);
    if k == 0 {
    } else {
      PeelChunk(k, width);
      ChunkAt(s[width..], count - 1, width, k - 1, j);
    }
  }

  lemma {:induction false} FlattenShape<T>(t: seq<seq<seq<T>>>, c: nat)
    requires forall h, i :: 0 <= h < |t| && 0 <= i < |t[h]| ==> |t[h][i]| == c
    ensures forall k :: 0 <= k < |Flatten(t)| ==> |Flatten(t)[k]| == c
  {
    if t == [] {
    } else {
      FlattenShape(t[1..], c);
    }
  }

  lemma SplitShape<T>(rows: seq<T>, a: nat, b: nat, c: nat)
    requires |rows| == a * b * c
    ensures Shaped(Split3(rows, a, b, c), a, b, c)
  {
    var pieces := Chunks(rows, a * b, c);
    var t := Chunks(pieces, a, b);
    forall h, i | 0 <= h < |t| && 0 <= i < |t[h]| ensures |t[h][i]| == c {
      ChunkAt(pieces, a, b, h, i);
    }
  }

  lemma SplitAt<T>(rows: seq<T>, a: nat, b: nat, c: nat, h: nat, i: nat, j: nat)
    requires |rows| == a * b * c && h < a && i < b && j < c
    ensures Shaped(Split3(rows, a, b, c), a, b, c)
    ensures 0 <= (h * b + i) * c + j < |rows|
    ensures Split3(rows, a, b, c)[h][i][j] == rows[(h * b + i) * c + j]
  {
    SplitShape(rows, a, b, c);
    ChunkAt(Chunks(rows, a * b, c), a, b, h, i);
    ChunkAt(rows, a * b, c, h * b + i, j);
  }

  /** The two reshapes are inverse to each other. */
  lemma MergeSplit<T>(rows: seq<T>, a: nat, b: nat, c: nat)
    requires |rows| == a * b * c
    ensures Merge3(Split3(rows, a, b, c)) == rows
  {
    FlattenChunks(Chunks(rows, a * b, c), a, b);
    FlattenChunks(rows, a * b, c);
  }

  lemma SplitMerge<T>(t: seq<seq<seq<T>>>, a: nat, b: nat, c: nat)
    requires Shaped(t, a, b, c)
    ensures |Merge3(t)| == a * b * c && Split3(Merge3(t), a, b, c) == t
  {
    ChunksFlatten(t, b);
    FlattenShape(t, c);
    ChunksFlatten(Flatten(t), c);
  }

  // ---- the conversion -------------------------------------------------------

  datatype Conversion<T> = Converted(rows: seq<T>) | ReshapeError

  /** `reshape(heads, b, c).swapaxes(1, 2)` and back to the leading axis. */
  function Interleave<T>(rows: seq<T>, heads: nat, b: nat, c: nat): seq<T>
    requires |rows| == heads * b * c
  {
    SplitShape(rows, heads, b, c);
    Merge3(SwapInner(Split3(rows, heads, b, c), heads, b, c))
  }

  /** The query/key branch of the conversion; the reshape refuses a row count that 2 * heads does not divide. */
  function ConvertRows<T>(rows: seq<T>, heads: nat): Conversion<T>
    requires heads > 0
  {
    var half := |rows| / heads / 2;
    if heads * 2 * half != |rows| then ReshapeError else Converted(Interleave(rows, heads, 2, half))
  }

  /** The way back: `reshape(heads, half, 2)`, swap, reshape. */
  function RestoreRows<T>(rows: seq<T>, heads: nat): Conversion<T>
    requires heads > 0
  {
    var half := |rows| / heads / 2;
    if heads * half * 2 != |rows| then ReshapeError else Converted(Interleave(rows, heads, half, 2))
  }

  /** Row (h, i, j) of the input is row (h, j, i) of the output. */
  lemma InterleaveAt<T>(rows: seq<T>, heads: nat, b: nat, c: nat, h: nat, i: nat, j: nat)
    requires |rows| == heads * b * c && h < heads && i < b && j < c
    ensures var out := Interleave(rows, heads, b, c);
            |out| == heads * c * b
            && 0 <= (h * b + i) * c + j < |rows| && 0 <= (h * c + j) * b + i < |out|
            && out[(h * c + j) * b + i] == rows[(h * b + i) * c + j]
  {
    SplitAt(rows, heads, b, c, h, i, j);
    var swapped := SwapInner(Split3(rows, heads, b, c), heads, b, c);
    SplitMerge(swapped, heads, c, b);
    SplitAt(Merge3(swapped), heads, c, b, h, j, i);
  }

  lemma InterleaveTwice<T>(rows: seq<T>, heads: nat, b: nat, c: nat)
    requires |rows| == heads * b * c
    ensures |Interleave(rows, heads, b, c)| == heads * c * b
    ensures Interleave(Interleave(rows, heads, b, c), heads, c, b) == rows
  {
    SplitShape(rows, heads, b, c);
    var t := Split3(rows, heads, b, c);
    var swapped := SwapInner(t, heads, b, c);
    SplitMerge(swapped, heads, c, b);
    SwapTwice(t, heads, b, c);
    MergeSplit(rows, heads, b, c);
  }

  lemma SwapTwice<T>(t: seq<seq<seq<T>>>, a: nat, b: nat, c: nat)
    requires Shaped(t, a, b, c)
    ensures SwapInner(SwapInner(t, a, b, c), a, c, b) == t
  {
    var back := SwapInner(SwapInner(t, a, b, c), a, c, b);
    forall h | 0 <= h < a ensures back[h] == t[h] {
      forall i | 0 <= i < b ensures back[h][i] == t[h][i] {
      }
    }
  }

  lemma HalfDivides(n: nat, heads: nat)
    requires heads > 0
    ensures heads * 2 * (n / heads / 2) == heads * (n / heads / 2) * 2
    ensures heads * 2 * (n / heads / 2) == n <==> n % (2 * heads) == 0
  {
    var k, r := Divide(n, 2 * heads);
    HalveQuotient(n, heads, k, r);
    Reassociate(heads, k);
  }

  lemma Divide(n: nat, d: nat) returns (q: nat, r: nat)
    requires d > 0
    ensures n == d * q + r && r < d && r == n % d
  {
    q, r := n / d, n % d;
  }

  lemma Reassociate(heads: int, k: int)
    ensures heads * 2 * k == heads * k * 2 == (2 * heads) * k
  {
  }

  lemma HalveQuotient(n: nat, heads: nat, k: nat, r: nat)
    requires heads > 0 && n == (2 * heads) * k + r && r < 2 * heads
    ensures n / heads / 2 == k
  {
    var extra := if r < heads then 0 else 1;
    assert n == heads * (2 * k + extra) + (r - extra * heads);
    DivModUnique(heads, n, 2 * k + extra, r - extra * heads);
  }

  /** Both reshapes go through exactly when the row count is a multiple of twice the head count. */
  lemma ReshapeAccepts<T>(rows: seq<T>, heads: nat)
    requires heads > 0
    ensures ConvertRows(rows, heads).Converted? <==> |rows| % (2 * heads) == 0
    ensures RestoreRows(rows, heads).Converted? <==> |rows| % (2 * heads) == 0
  {
    HalfDivides(|rows|, heads);
  }

  /** Rotary halves become interleaved pairs: half `s`, offset `j` of a head moves to pair `j`, slot `s`. */
  lemma ConvertMovesRow<T>(rows: seq<T>, heads: nat, h: nat, s: nat, j: nat)
    requires heads > 0 && ConvertRows(rows, heads).Converted?
    requires h < heads && s < 2 && j < |rows| / heads / 2
    ensures var half := |rows| / heads / 2;
            var out := ConvertRows(rows, heads).rows;
            var from, to := h * 2 * half + s * half + j, h * 2 * half + 2 * j + s;
            |out| == |rows| && 0 <= from < |rows| && 0 <= to < |rows| && out[to] == rows[from]
  {
    var half := |rows| / heads / 2;
    InterleaveAt(rows, heads, 2, half, h, s, j);
    Reassociate(heads, half);
    RowForms(h, s, j, half);
  }

  lemma RowForms(h: int, s: int, j: int, half: int)
    ensures (h * 2 + s) * half + j == h * 2 * half + s * half + j
    ensures (h * half + j) * 2 + s == h * 2 * half + 2 * j + s
  {
  }

  /** Restoring undoes converting, on every tensor that the conversion accepts. */
  lemma RestoreUndoesConvert<T>(rows: seq<T>, heads: nat)
    requires heads > 0 && ConvertRows(rows, heads).Converted?
    ensures RestoreRows(ConvertRows(rows, heads).rows, heads) == Converted(rows)
  {
    var half := |rows| / heads / 2;
    HalfDivides(|rows|, heads);
    InterleaveTwice(rows, heads, 2, half);
  }

  /** Converting undoes restoring, so the conversion reaches every tensor of an accepted size. */
  lemma ConvertUndoesRestore<T>(rows: seq<T>, heads: nat)
    requires heads > 0 && RestoreRows(rows, heads).Converted?
    ensures ConvertRows(RestoreRows(rows, heads).rows, heads) == Converted(rows)
  {
    var half := |rows| / heads / 2;
    HalfDivides(|rows|, heads);
    InterleaveTwice(rows, heads, half, 2);
  }

  /** No row is lost or duplicated: the converted rows are a permutation of the source rows. */
  lemma ConvertIsPermutation<T>(rows: seq<T>, heads: nat)
    requires heads > 0 && ConvertRows(rows, heads).Converted?
    ensures multiset(ConvertRows(rows, heads).rows) == multiset(rows)
  {
    var half := |rows| / heads / 2;
    SplitShape(rows, heads, 2, half);
    var split := Split3(rows, heads, 2, half);
    MergeSplit(rows, heads, 2, half);
    var swapped := SwapInner(split, heads, 2, half);
    forall h | 0 <= h < heads
      ensures multiset(Flatten(swapped[h])) == multiset(Flatten(split[h]))
    {
      SwappedHead(split, swapped, heads, half, h);
    }
    FlattenPermuted(swapped, split);
  }

  lemma SwappedHead<T>(t: seq<seq<seq<T>>>, swapped: seq<seq<seq<T>>>, heads: nat, half: nat, h: nat)
    requires Shaped(t, heads, 2, half) && swapped == SwapInner(t, heads, 2, half) && h < heads
    ensures multiset(Flatten(swapped[h])) == multiset(Flatten(t[h]))
  {
    var block := t[h];
    FlattenPair(block);
    InterleavePairs(block[0], block[1], swapped[h]);
  }

  lemma FlattenPair<T>(s: seq<seq<T>>)
    requires |s| == 2
    ensures Flatten(s) == s[0] + s[1]
  {
    var tail := s[1..];
    assert Flatten(tail[1..]) == [];
    assert Flatten(tail) == tail[0] + [];
  }

  lemma {:induction false} InterleavePairs<T>(first: seq<T>, second: seq<T>, pairs: seq<seq<T>>)
    requires |first| == |second| == |pairs|
    requires forall j :: 0 <= j < |pairs| ==> |pairs[j]| == 2 && pairs[j][0] == first[j] && pairs[j][1] == second[j]
    ensures multiset(Flatten(pairs)) == multiset(first + second)
  {
    if pairs != [] {
      InterleavePairs(first[1..], second[1..], pairs[1..]);
      assert first == [first[0]] + first[1..] && second == [second[0]] + second[1..];
      assert pairs[0] == [first[0], second[0]];
    } else {
      assert first == [] && second == [];
    }
  }

  lemma {:induction false} FlattenPermuted<T>(a: seq<seq<seq<T>>>, b: seq<seq<seq<T>>>)
    requires |a| == |b|
    requires forall h :: 0 <= h < |a| ==> multiset(Flatten(a[h])) == multiset(Flatten(b[h]))
    ensures multiset(Merge3(a)) == multiset(Merge3(b))
  {
    if a == [] {
    } else {
      FlattenPermuted(a[1..], b[1..]);
      FlattenAppend(a[0], Flatten(a[1..]));
      FlattenAppend(b[0], Flatten(b[1..]));
    }
  }

  // ---- the comparison ---------------------------------------------------------

  const BLOCK := 8 * 1024 * 1024

  /** `all(...)` over the chunk starts `0, BLOCK, 2 * BLOCK, ...`. */
  predicate EqualFrom<T(==)>(left: seq<T>, right: seq<T>, start: nat)
    requires |left| == |right|
    decreases |left| - start
  {
    start >= |left|
    || (left[start..Min(start + BLOCK, |left|)] == right[start..Min(start + BLOCK, |right|)]
        && EqualFrom(left, right, start + BLOCK))
  }

  predicate EqualChunked<T(==)>(left: seq<T>, right: seq<T>) {
    |left| == |right| && EqualFrom(left, right, 0)
  }

  lemma {:induction false} EqualFromIsSuffixEquality<T>(left: seq<T>, right: seq<T>, start: nat)
    requires |left| == |right| && start <= |left|
    ensures EqualFrom(left, right, start) <==> left[start..] == right[start..]
    decreases |left| - start
  {
    if start >= |left| {
    } else {
      var end := Min(start + BLOCK, |left|);
      if start + BLOCK <= |left| {
        EqualFromIsSuffixEquality(left, right, end);
      }
      assert left[start..] == left[start..end] + left[end..];
      assert right[start..] == right[start..end] + right[end..];
      assert left[start..end] == left[start..][..end - start];
      assert right[start..end] == right[start..][..end - start];
      assert left[end..] == left[start..][end - start..];
      assert right[end..] == right[start..][end - start..];
    }
  }

  /** Comparing in chunks decides equality of the whole arrays. */
  lemma EqualChunkedIsEquality<T>(left: seq<T>, right: seq<T>)
    ensures EqualChunked(left, right) <==> left == right
  {
    if |left| == |right| {
      EqualFromIsSuffixEquality(left, right, 0);
    }
  }

  /** A passing check leaves only one possible source tensor of the given row width. */
  lemma PassingCheckDeterminesSource<T>(actual: seq<T>, source: seq<seq<T>>, other: seq<seq<T>>, heads: nat, width: nat)
    requires heads > 0 && width > 0
    requires forall row :: row in source || row in other ==> |row| == width
    requires ConvertRows(source, heads).Converted? && ConvertRows(other, heads).Converted?
    requires EqualChunked(actual, Flatten(ConvertRows(source, heads).rows))
    requires EqualChunked(actual, Flatten(ConvertRows(other, heads).rows))
    ensures source == other
  {
    var a, b := ConvertRows(source, heads).rows, ConvertRows(other, heads).rows;
    EqualChunkedIsEquality(actual, Flatten(a));
    EqualChunkedIsEquality(actual, Flatten(b));
    ConvertIsPermutation(source, heads);
    ConvertIsPermutation(other, heads);
    forall row | row in a || row in b ensures |row| == width {
      assert row in multiset(a) || row in multiset(b);
    }
    FlattenInjective(a, b, width);
    RestoreUndoesConvert(source, heads);
    RestoreUndoesConvert(other, heads);
  }

  lemma FlattenInjective<T>(a: seq<seq<T>>, b: seq<seq<T>>, width: nat)
    requires width > 0 && Flatten(a) == Flatten(b)
    requires forall row :: row in a || row in b ==> |row| == width
    ensures a == b
  {
    ChunksFlatten(a, width);
    ChunksFlatten(b, width);
    SameCount(|a|, |b|, width);
  }

  lemma SameCount(m: nat, n: nat, width: nat)
    requires width > 0 && m * width == n * width
    ensures m == n
  {
    MultipleBound(width, m - n);
    assert width * (m - n) == m * width - n * width;
  }
}
