/**
 * How multipartUpload cuts the archive into parts: consecutive slices of a
 * fixed size, the last one possibly shorter.
 */
module Chunking {
  import opened Seqs

  /** The part size of a multipart upload, and the single-put threshold: 5 MiB. */
  const PartSize: nat := 5 * 1024 * 1024

  /** `s` cut into consecutive pieces of `size` elements; the last piece may be shorter. */
  function Chunks<T>(s: seq<T>, size: nat): seq<seq<T>>
    requires size > 0
    decreases |s|
  {
    if |s| == 0 then []
    else if |s| <= size then [s]
    else [s[..size]] + Chunks(s[size..], size)
  }

  /** The pieces written one after the other. */
  function Flatten<T>(pieces: seq<seq<T>>): seq<T> {
    if |pieces| == 0 then [] else pieces[0] + Flatten(pieces[1..])
  }

  /** The least `k` with `k * size >= n`. */
  function PartCount(n: nat, size: nat): nat
    requires size > 0
  {
    (n + size - 1) / size
  }

  lemma PartCountStep(n: nat, size: nat)
    requires size > 0 && n > size
    ensures PartCount(n, size) == PartCount(n - size, size) + 1
  {
    var m := n - 1;
    var q, r := m / size, m % size;
    assert m == q * size + r;
    assert m + size == (q + 1) * size + r;
    DivUnique(m + size, size, q + 1, r);
    DivUnique(m, size, q, r);
    assert n + size - 1 == m + size;
    assert n - size + size - 1 == m;
  }

  lemma DivUnique(a: int, size: int, q: int, r: int)
    requires size > 0 && 0 <= r < size && a == q * size + r
    ensures a / size == q
  {
    var q', r' := a / size, a % size;
    assert a == q' * size + r';
    if q' < q {
      assert (q - q') * size == r' - r;
      assert (q - q') * size >= size by { MulAtLeast(q - q', size); }
    } else if q' > q {
      assert (q' - q) * size == r - r';
      assert (q' - q) * size >= size by { MulAtLeast(q' - q, size); }
    }
  }

  lemma PartCountOne(n: nat, size: nat)
    requires 0 < n <= size
    ensures PartCount(n, size) == 1
  {
  }

  /**
   * The pieces reassemble to `s`; there are ceil(|s| / size) of them; all but
   * the last have exactly `size` elements and the last has 1 to `size`.
   */
  lemma {:induction false} ChunksPartition<T>(s: seq<T>, size: nat)
    requires size > 0
    ensures Flatten(Chunks(s, size)) == s
    ensures |Chunks(s, size)| == PartCount(|s|, size)
    ensures forall i :: 0 <= i < |Chunks(s, size)| - 1 ==> |Chunks(s, size)[i]| == size
    ensures |Chunks(s, size)| > 0 ==> 1 <= |Chunks(s, size)[|Chunks(s, size)| - 1]| <= size
    decreases |s|
  {
    var c := Chunks(s, size);
    if |s| == 0 {
    } else if |s| <= size {
      PartCountOne(|s|, size);
      assert Flatten(c) == s + Flatten([]);
    } else {
      var rest := Chunks(s[size..], size);
      ChunksPartition(s[size..], size);
      PartCountStep(|s|, size);
      assert c[1..] == rest;
      assert Flatten(c) == s[..size] + Flatten(rest);
      assert s == s[..size] + s[size..];
      forall i | 0 <= i < |c| - 1
        ensures |c[i]| == size
      {
        if i > 0 {
          assert c[i] == rest[i - 1];
        }
      }
      assert c[|c| - 1] == rest[|rest| - 1];
    }
  }

  /**
   * Piece `i` is the slice at offset `i * size`, cut off at the end of `s`:
   * what `content.subarray(offset, offset + size)` returns.
   */
  lemma {:induction false} ChunkAtOffset<T>(s: seq<T>, size: nat, i: nat)
    requires size > 0 && i < |Chunks(s, size)|
    ensures i * size < |s|
    ensures Chunks(s, size)[i] == s[i * size .. Min(i * size + size, |s|)]
    decreases |s|
  {
    if |s| > size && i > 0 {
      ChunkAtOffset(s[size..], size, i - 1);
      assert (i - 1) * size + size == i * size;
      assert Chunks(s, size)[i] == Chunks(s[size..], size)[i - 1];
    }
  }

  /** The offset loop runs while the offset is inside the content: once per piece. */
  lemma {:induction false} OffsetInRange<T>(s: seq<T>, size: nat, i: nat)
    requires size > 0
    ensures i * size < |s| <==> i < |Chunks(s, size)|
    decreases |s|
  {
    if |s| > size && i > 0 {
      OffsetInRange(s[size..], size, i - 1);
      assert (i - 1) * size + size == i * size;
    } else if |s| > size {
    } else if |s| > 0 && i > 0 {
      assert i * size >= size by {
        MulAtLeast(i, size);
      }
    }
  }

  lemma MulAtLeast(i: nat, size: nat)
    requires i >= 1
    ensures i * size >= size
  {
  }
}
