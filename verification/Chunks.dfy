/** Cutting a list into runs of bounded length. */
module Chunks {

  function Flat<T>(chunks: seq<seq<T>>): seq<T> {
    if chunks == [] then [] else Flat(chunks[..|chunks| - 1]) + chunks[|chunks| - 1]
  }

  predicate AllFull<T>(size: nat, chunks: seq<seq<T>>) {
    forall c :: 0 <= c < |chunks| ==> |chunks[c]| == size
  }

  /** The chunks concatenate to the list, and all hold `size` elements but the last one, which is not empty either. */
  predicate IsChunking<T(==)>(list: seq<T>, size: nat, chunks: seq<seq<T>>) {
    && Flat(chunks) == list
    && (forall c :: 0 <= c < |chunks| ==> 0 < |chunks[c]| <= size)
    && (chunks != [] ==> AllFull(size, chunks[..|chunks| - 1]))
  }

  lemma ChunkingNext<T>(list: seq<T>, size: nat, chunks: seq<seq<T>>, i: nat, end: nat)
    requires i < end <= |list| && end - i <= size && IsChunking(list[..i], size, chunks) && AllFull(size, chunks)
    ensures IsChunking(list[..end], size, chunks + [list[i..end]])
    ensures end - i == size ==> AllFull(size, chunks + [list[i..end]])
  {
    assert list[..i] + list[i..end] == list[..end];
    assert (chunks + [list[i..end]])[..|chunks|] == chunks;
  }

  /** Element `j` of chunk `c` stands at position `At(chunks, c, j)` of the list. */
  function At<T>(chunks: seq<seq<T>>, c: nat, j: nat): nat
    requires c <= |chunks|
  {
    |Flat(chunks[..c])| + j
  }

  lemma {:induction false} FlatAt<T>(chunks: seq<seq<T>>, c: nat, j: nat)
    requires c < |chunks| && j < |chunks[c]|
    ensures At(chunks, c, j) < |Flat(chunks)| && Flat(chunks)[At(chunks, c, j)] == chunks[c][j]
  {
    var n := |chunks| - 1;
    if c < n {
      FlatAt(chunks[..n], c, j);
      assert chunks[..n][..c] == chunks[..c];
    }
  }

  lemma {:induction false} FlatOf<T>(chunks: seq<seq<T>>, p: nat) returns (c: nat, j: nat)
    requires p < |Flat(chunks)|
    ensures c < |chunks| && j < |chunks[c]| && p == At(chunks, c, j)
  {
    var n := |chunks| - 1;
    if p < |Flat(chunks[..n])| {
      c, j := FlatOf(chunks[..n], p);
      assert chunks[..n][..c] == chunks[..c];
    } else {
      c, j := n, p - |Flat(chunks[..n])|;
    }
  }

  lemma {:induction false} FlatGrows<T>(chunks: seq<seq<T>>, c: nat, d: nat)
    requires c < d <= |chunks|
    ensures |Flat(chunks[..d])| >= |Flat(chunks[..c])| + |chunks[c]|
  {
    assert chunks[..d][..d - 1] == chunks[..d - 1];
    if c < d - 1 {
      FlatGrows(chunks, c, d - 1);
    }
  }

  /** A chunk is a run of the list. */
  lemma {:induction false} FlatChunk<T>(chunks: seq<seq<T>>, c: nat) returns (from: nat)
    requires c < |chunks|
    ensures from + |chunks[c]| <= |Flat(chunks)| && Flat(chunks)[from..from + |chunks[c]|] == chunks[c]
  {
    var n := |chunks| - 1;
    if c < n {
      from := FlatChunk(chunks[..n], c);
      assert Flat(chunks)[from..from + |chunks[c]|] == Flat(chunks[..n])[from..from + |chunks[c]|];
    } else {
      from := |Flat(chunks[..n])|;
    }
  }
}
