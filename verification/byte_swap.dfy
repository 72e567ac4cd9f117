/** What the copy loop the per-field emitter writes for an array field
with swapped endianness does to the bytes it copies.

The generated C loop is

    for(uintptr_t i = 0; i < total; i++)
        dst[i] = src[i + (e - 1) - (i % e)];

for an array of `total = n * e` bytes made of `n` elements of `e` bytes. Its
source index is the last byte of the element `i` lies in, for every byte of
that element, so the loop copies the last byte of each element into all of
its bytes instead of reversing the element. `CopyAsWritten` models the loop
as generated; `CopyFixed` models the loop with the source index
`i + (e - 1) - 2 * (i % e)`, which reverses every element. */
module ByteSwap {
  import opened Ints

  /** The source index of the generated loop. */
  function SourceIndexAsWritten(i: nat, e: nat): int
    requires e >= 1
  {
    i + (e - 1) - (i % e)
  }

  /** Byte `i` of an array of `n` elements of `e` bytes is byte `i % e` of
      element `i / e`, and that element lies inside the array. */
  lemma ElementOf(i: nat, e: nat, n: nat)
    requires e >= 1 && i < n * e
    ensures i == (i / e) * e + i % e && 0 <= i % e < e
    ensures i / e < n && (i / e) * e + e <= n * e
  {
    var k := i / e;
    assert k < n;
    MulLeq(k + 1, n, e);
    assert (k + 1) * e == k * e + e;
  }

  lemma MulLeq(a: nat, b: nat, c: nat)
    requires a <= b
    ensures a * c <= b * c
  {
    assert b * c - a * c == (b - a) * c;
  }

  /** The source index is always the last byte of the element that byte
      `i` belongs to, and so it stays inside the array. */
  lemma SourceIndexAsWrittenIsElementEnd(i: nat, e: nat, n: nat)
    requires e >= 1 && i < n * e
    ensures SourceIndexAsWritten(i, e) == (i / e) * e + e - 1
    ensures 0 <= SourceIndexAsWritten(i, e) < n * e
  {
    ElementOf(i, e, n);
  }

  /** The generated loop on `src`, an array of elements of `e` bytes. */
  function CopyAsWritten(src: seq<U8>, e: nat): (dst: seq<U8>)
    requires e >= 1 && |src| % e == 0
    ensures |dst| == |src|
    ensures forall i :: 0 <= i < |src| ==> 0 <= SourceIndexAsWritten(i, e) < |src| && dst[i] == src[SourceIndexAsWritten(i, e)]
  {
    AsWrittenIndicesInBounds(|src|, e);
    seq(|src|, i requires 0 <= i < |src| => src[SourceIndexAsWritten(i, e)])
  }

  lemma AsWrittenIndicesInBounds(len: nat, e: nat)
    requires e >= 1 && len % e == 0
    ensures forall i :: 0 <= i < len ==> 0 <= SourceIndexAsWritten(i, e) < len
  {
    WholeElements(len, e);
    forall i | 0 <= i < len ensures 0 <= SourceIndexAsWritten(i, e) < len {
      SourceIndexAsWrittenIsElementEnd(i, e, len / e);
    }
  }

  lemma WholeElements(len: nat, e: nat)
    requires e >= 1 && len % e == 0
    ensures len == (len / e) * e
  {
  }

  /** Every byte of an element receives that element's last byte. */
  lemma CopyAsWrittenRepeatsLastByte(src: seq<U8>, e: nat, k: nat, j: nat)
    requires e >= 1 && |src| % e == 0 && j < e && (k + 1) * e <= |src|
    ensures CopyAsWritten(src, e)[k * e + j] == src[k * e + e - 1]
  {
    DivModOf(k, j, e);
    assert SourceIndexAsWritten(k * e + j, e) == k * e + e - 1;
  }

  /** Two-byte elements `[1, 2]` come out as `[2, 2]`, not `[2, 1]`. */
  lemma CopyAsWrittenDoesNotSwap()
    ensures CopyAsWritten([1, 2], 2) == [2, 2]
    ensures CopyAsWritten([1, 2], 2) != [2, 1]
  {
    var dst := CopyAsWritten([1, 2], 2);
    assert dst[0] == [1, 2][1];
    assert dst[1] == [1, 2][1];
  }

  /** The source index that reverses every element. */
  function SourceIndexFixed(i: nat, e: nat): int
    requires e >= 1
  {
    i + (e - 1) - 2 * (i % e)
  }

  /** Byte `j` of element `k` is taken from byte `e - 1 - j` of the same
      element. */
  lemma SourceIndexFixedMirrors(k: nat, j: nat, e: nat)
    requires j < e
    ensures SourceIndexFixed(k * e + j, e) == k * e + (e - 1 - j)
  {
    DivModOf(k, j, e);
  }

  lemma SourceIndexFixedInBounds(i: nat, e: nat, n: nat)
    requires e >= 1 && i < n * e
    ensures 0 <= SourceIndexFixed(i, e) < n * e
  {
    ElementOf(i, e, n);
    SourceIndexFixedMirrors(i / e, i % e, e);
  }

  /** The corrected loop on `src`. */
  function CopyFixed(src: seq<U8>, e: nat): (dst: seq<U8>)
    requires e >= 1 && |src| % e == 0
    ensures |dst| == |src|
    ensures forall i :: 0 <= i < |src| ==> 0 <= SourceIndexFixed(i, e) < |src| && dst[i] == src[SourceIndexFixed(i, e)]
  {
    FixedIndicesInBounds(|src|, e);
    seq(|src|, i requires 0 <= i < |src| => src[SourceIndexFixed(i, e)])
  }

  lemma FixedIndicesInBounds(len: nat, e: nat)
    requires e >= 1 && len % e == 0
    ensures forall i :: 0 <= i < len ==> 0 <= SourceIndexFixed(i, e) < len
  {
    WholeElements(len, e);
    forall i | 0 <= i < len ensures 0 <= SourceIndexFixed(i, e) < len {
      SourceIndexFixedInBounds(i, e, len / e);
    }
  }

  /** The corrected loop reverses the bytes of every element. */
  lemma CopyFixedReversesEachElement(src: seq<U8>, e: nat, k: nat, j: nat)
    requires e >= 1 && |src| % e == 0 && j < e && (k + 1) * e <= |src|
    ensures CopyFixed(src, e)[k * e + j] == src[k * e + (e - 1 - j)]
  {
    SourceIndexFixedMirrors(k, j, e);
  }

  /** Swapping twice gives the bytes back, so the corrected loop only
      rearranges bytes: it loses and duplicates none. */
  lemma CopyFixedIsInvolution(src: seq<U8>, e: nat)
    requires e >= 1 && |src| % e == 0
    ensures CopyFixed(CopyFixed(src, e), e) == src
  {
    var once := CopyFixed(src, e);
    var twice := CopyFixed(once, e);
    forall i | 0 <= i < |src| ensures twice[i] == src[i] {
      var k := i / e;
      var j := i % e;
      ElementOf(i, e, |src| / e);
      SourceIndexFixedMirrors(k, j, e);
      SourceIndexFixedMirrors(k, e - 1 - j, e);
    }
  }

  /** Two-byte elements `[1, 2]` come out as `[2, 1]`. */
  lemma CopyFixedSwaps()
    ensures CopyFixed([1, 2], 2) == [2, 1]
  {
    var dst := CopyFixed([1, 2], 2);
    assert dst[0] == [1, 2][1];
    assert dst[1] == [1, 2][0];
  }

  /** For single bytes the two loops agree: both are a plain copy. */
  lemma SingleBytesAreCopied(src: seq<U8>)
    ensures CopyAsWritten(src, 1) == src && CopyFixed(src, 1) == src
  {
  }
}
