/** The slicing loop of `b64ToBlob`: the byte string that `atob` produced is
    cut into slices of at most `sliceSize` characters, and every character
    becomes one `Uint8Array` element holding its character code. Base64
    decoding itself is the browser's and is not part of this module. */
module Chunking {

  import opened Js

  /** A `Uint8Array` element. */
  newtype byte = x: int | 0 <= x < 256

  /** The slice size `b64ToBlob` uses when its caller gives none. */
  const SliceSize: nat := 512

  /** `Uint8Array` stores `slice.charCodeAt(i)` reduced modulo 256. */
  function ByteOf(c: char): (b: byte)
    ensures (c as int) < 256 ==> b as int == c as int
  {
    ((c as int) % 256) as byte
  }

  /** The element values of every slice, in order. */
  function Bytes(s: seq<char>): seq<byte> {
    seq(|s|, i requires 0 <= i < |s| => ByteOf(s[i]))
  }

  /** Reference definition of the slicing: the first `n` elements, then the
      slices of the rest. */
  function Chunks<T>(s: seq<T>, n: nat): seq<seq<T>>
    requires n > 0
    decreases |s|
  {
    if s == [] then []
    else if |s| <= n then [s]
    else [s[..n]] + Chunks(s[n..], n)
  }

  /** The concatenation of a list of slices, as `new Blob(byteArrays)` reads it. */
  function Flatten<T>(ss: seq<seq<T>>): seq<T> {
    if ss == [] then [] else ss[0] + Flatten(ss[1..])
  }

  /** Concatenating the slices gives back the sliced sequence. */
  lemma {:induction false} FlattenChunks<T>(s: seq<T>, n: nat)
    requires n > 0
    ensures Flatten(Chunks(s, n)) == s
    decreases |s|
  {
    if |s| > n {
      FlattenChunks(s[n..], n);
      var cs := Chunks(s, n);
      assert cs[1..] == Chunks(s[n..], n);
      assert s == s[..n] + s[n..];
    } else if s != [] {
      assert Chunks(s, n)[1..] == [];
      assert s + [] == s;
    }
  }

  /** Every slice is non-empty and at most `n` long; all but the last are
      exactly `n` long. */
  lemma {:induction false} ChunkLengths<T>(s: seq<T>, n: nat)
    requires n > 0
    ensures forall k :: 0 <= k < |Chunks(s, n)| ==> 0 < |Chunks(s, n)[k]| <= n
    ensures forall k :: 0 <= k < |Chunks(s, n)| - 1 ==> |Chunks(s, n)[k]| == n
    decreases |s|
  {
    if |s| > n {
      ChunkLengths(s[n..], n);
      var cs := Chunks(s, n);
      assert forall k :: 1 <= k < |cs| ==> cs[k] == Chunks(s[n..], n)[k - 1];
    }
  }

  /** There are `ceil(|s| / n)` slices: none for an empty sequence, and
      otherwise the least count whose slices can hold `|s|` elements. */
  lemma {:induction false} ChunkCount<T>(s: seq<T>, n: nat)
    requires n > 0
    ensures |Chunks(s, n)| == 0 <==> s == []
    ensures (|Chunks(s, n)| - 1) * n < |s| <= |Chunks(s, n)| * n
    decreases |s|
  {
    if |s| > n {
      ChunkCount(s[n..], n);
      var c := |Chunks(s[n..], n)|;
      assert (c + 1) * n == c * n + n;
      assert (c - 1 + 1) * n == (c - 1) * n + n;
    }
  }

  /** One step of the loop: the slices from `offset` on are the slice at
      `offset` followed by the slices from the next offset. */
  lemma ChunksFrom<T>(s: seq<T>, n: nat, offset: nat)
    requires n > 0 && offset < |s|
    ensures Chunks(s[offset..], n) == [s[offset..Min(offset + n, |s|)]] + Chunks(s[Min(offset + n, |s|)..], n)
  {
    var rest := s[offset..];
    if |rest| > n {
      assert rest[..n] == s[offset..offset + n];
      assert rest[n..] == s[offset + n..];
    } else {
      assert rest == s[offset..|s|];
      assert s[|s|..] == [];
      assert Chunks(s[|s|..], n) == [];
    }
  }

  /** Slice `k` holds the elements `k * n` up to `k * n + n` of `s`. */
  lemma {:induction false} ChunkAt<T>(s: seq<T>, n: nat, k: nat, i: nat)
    requires n > 0
    requires k < |Chunks(s, n)| && i < |Chunks(s, n)[k]|
    ensures k * n + i < |s| && Chunks(s, n)[k][i] == s[k * n + i]
    decreases |s|
  {
    if k > 0 {
      var rest := s[n..];
      assert Chunks(s, n)[k] == Chunks(rest, n)[k - 1];
      ChunkAt(rest, n, k - 1, i);
      var j := (k - 1) * n + i;
      assert j + n == k * n + i by {
        assert (k - 1) * n == k * n - n;
      }
      assert rest[j] == s[j + n];
    }
  }

  /** The inner loop: `new Uint8Array(byteNumbers)` for one slice. */
  method SliceToBytes(slice: seq<char>) returns (byteNumbers: seq<byte>)
    ensures byteNumbers == Bytes(slice)
  {
    byteNumbers := [];
    var i := 0;
    while i < |slice|
      invariant i <= |slice| && |byteNumbers| == i
      invariant forall j :: 0 <= j < i ==> byteNumbers[j] == ByteOf(slice[j])
    {
      byteNumbers := byteNumbers + [ByteOf(slice[i])];
      i := i + 1;
    }
  }

  /** `b64ToBlob`'s loop over the decoded byte string `byteChars`. */
  method SliceBytes(byteChars: seq<char>, sliceSize: nat) returns (byteArrays: seq<seq<byte>>)
    requires sliceSize > 0
    ensures byteArrays == Chunks(Bytes(byteChars), sliceSize)
    ensures Flatten(byteArrays) == Bytes(byteChars)
    ensures |byteArrays| == 0 <==> byteChars == []
    ensures (|byteArrays| - 1) * sliceSize < |byteChars| <= |byteArrays| * sliceSize
    ensures forall k :: 0 <= k < |byteArrays| ==> 0 < |byteArrays[k]| <= sliceSize
    ensures forall k :: 0 <= k < |byteArrays| - 1 ==> |byteArrays[k]| == sliceSize
  {
    ghost var all := Bytes(byteChars);
    byteArrays := [];
    var offset := 0;
    while offset < |byteChars|
      invariant byteArrays + Chunks(all[Min(offset, |all|)..], sliceSize) == Chunks(all, sliceSize)
    {
      var end := Min(offset + sliceSize, |byteChars|);
      var byteNumbers := SliceToBytes(byteChars[offset..end]);
      assert byteNumbers == all[offset..end];
      ChunksFrom(all, sliceSize, offset);
      assert all[Min(offset, |all|)..] == all[offset..];
      byteArrays := byteArrays + [byteNumbers];
      offset := offset + sliceSize;
    }
    assert all[Min(offset, |all|)..] == [];
    ChunkFacts(all, sliceSize);
  }

  /** The properties of the slicing that `SliceBytes` reports. */
  lemma ChunkFacts<T>(s: seq<T>, n: nat)
    requires n > 0
    ensures Flatten(Chunks(s, n)) == s
    ensures |Chunks(s, n)| == 0 <==> s == []
    ensures (|Chunks(s, n)| - 1) * n < |s| <= |Chunks(s, n)| * n
    ensures forall k :: 0 <= k < |Chunks(s, n)| ==> 0 < |Chunks(s, n)[k]| <= n
    ensures forall k :: 0 <= k < |Chunks(s, n)| - 1 ==> |Chunks(s, n)[k]| == n
  {
    FlattenChunks(s, n);
    ChunkCount(s, n);
    ChunkLengths(s, n);
  }

  /** A whole blob: its slices and its content type. */
  datatype Blob = Blob(parts: seq<seq<byte>>, contentType: string)

  /** `b64ToBlob(b64, contentType)` once `atob` has returned `byteChars`. */
  function ToBlob(byteChars: seq<char>, contentType: string): (blob: Blob)
    ensures Flatten(blob.parts) == Bytes(byteChars)
    ensures blob.contentType == contentType
    ensures forall k :: 0 <= k < |blob.parts| - 1 ==> |blob.parts[k]| == SliceSize
  {
    FlattenChunks(Bytes(byteChars), SliceSize);
    ChunkLengths(Bytes(byteChars), SliceSize);
    Blob(Chunks(Bytes(byteChars), SliceSize), contentType)
  }

  /** `atob` yields code units below 256, and for those the blob holds the
      character codes themselves. */
  lemma BlobHoldsCodes(byteChars: seq<char>, contentType: string)
    requires forall i :: 0 <= i < |byteChars| ==> (byteChars[i] as int) < 256
    ensures |Flatten(ToBlob(byteChars, contentType).parts)| == |byteChars|
    ensures forall i :: 0 <= i < |byteChars| ==>
      Flatten(ToBlob(byteChars, contentType).parts)[i] as int == byteChars[i] as int
  {
  }
}
