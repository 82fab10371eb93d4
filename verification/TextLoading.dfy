/** TextLoader: splitting a text into overlapping chunks. */
module TextLoading {
  import opened Common

  datatype Document = Document(content: string, source: string, chunkIndex: nat)

  function Min(a: int, b: int): int {
    if a < b then a else b
  }

  function Clamp(i: int, n: nat): nat {
    if i < 0 then 0 else if i > n then n else i
  }

  /** `String.prototype.substring`: bounds are clamped and put in order. */
  function Substring(s: string, from: int, to: int): string {
    var a, b := Clamp(from, |s|), Clamp(to, |s|);
    if a <= b then s[a..b] else s[b..a]
  }

  /** How many chunks: n divided by the step, rounded up. */
  function ChunkCount(n: nat, step: int): nat
    requires step > 0
  {
    (n + step - 1) / step
  }

  function Chunk(text: string, size: int, step: int, k: nat): string {
    Substring(text, k * step, Min(k * step + size, |text|))
  }

  class TextLoader {
    const chunkSize: int
    const chunkOverlap: int

    constructor (chunkSize: int, chunkOverlap: int)
      requires chunkOverlap < chunkSize
      ensures this.chunkSize == chunkSize && this.chunkOverlap == chunkOverlap
    {
      this.chunkSize := chunkSize;
      this.chunkOverlap := chunkOverlap;
    }

    /** The loop, with its own guard against a step that does not advance. That guard never
        fires for a loader that was built, and the chunks are laid out by arithmetic alone. */
    method SplitText(text: string, sourceIdentifier: string) returns (documents: seq<Document>)
      requires chunkOverlap < chunkSize
      ensures |documents| == ChunkCount(|text|, chunkSize - chunkOverlap)
      ensures forall k :: 0 <= k < |documents| ==>
        documents[k] == Document(Chunk(text, chunkSize, chunkSize - chunkOverlap, k), sourceIdentifier, k)
    {
      documents := [];
      var startIndex, chunkIndex := 0, 0;
      ghost var step := chunkSize - chunkOverlap;
      while startIndex < |text|
        invariant chunkIndex == |documents| && startIndex == chunkIndex * step
        invariant chunkIndex > 0 ==> (chunkIndex - 1) * step < |text|
        invariant forall k :: 0 <= k < |documents| ==>
          documents[k] == Document(Chunk(text, chunkSize, step, k), sourceIdentifier, k)
        decreases |text| - startIndex
      {
        var endIndex := Min(startIndex + chunkSize, |text|);
        documents := documents + [Document(Substring(text, startIndex, endIndex), sourceIdentifier, chunkIndex)];
        assert documents[chunkIndex] == Document(Chunk(text, chunkSize, step, chunkIndex), sourceIdentifier, chunkIndex);
        NextMultiple(chunkIndex, step);
        chunkIndex := chunkIndex + 1;
        startIndex := startIndex + chunkSize - chunkOverlap;
        if chunkSize - chunkOverlap <= 0 {
          assert false;
          startIndex := endIndex;
        }
        if startIndex >= |text| {
          break;
        }
      }
      CountIsCeiling(|text|, step, chunkIndex);
    }
  }

  /** Building a loader fails exactly when the overlap is not smaller than the size. */
  method CreateTextLoader(chunkSize: int, chunkOverlap: int) returns (loader: TextLoader?)
    ensures loader == null <==> chunkOverlap >= chunkSize
    ensures loader != null ==> loader.chunkSize == chunkSize && loader.chunkOverlap == chunkOverlap
  {
    if chunkOverlap >= chunkSize {
      return null;
    }
    loader := new TextLoader(chunkSize, chunkOverlap);
  }

  lemma NextMultiple(k: int, step: int)
    ensures (k + 1) * step == k * step + step
  {}

  lemma SmallerMultiple(a: int, b: int, step: int)
    requires step > 0 && a * step < b * step
    ensures a < b
  {
    if a >= b {
      MultiplyMonotone(b, a, step);
    }
  }

  lemma CountIsCeiling(n: nat, step: int, c: nat)
    requires step > 0 && c * step >= n && (c > 0 ==> (c - 1) * step < n)
    ensures ChunkCount(n, step) == c
  {
    var q := (n + step - 1) / step;
    assert n + step - 1 == q * step + (n + step - 1) % step;
    NextMultiple(c, step);
    SmallerMultiple(q, c + 1, step);
    if c > 0 {
      SmallerMultiple(c - 1, q, step);
    }
  }

  lemma MultiplyMonotone(a: int, b: int, step: int)
    requires a <= b && step >= 0
    ensures a * step <= b * step
  {}

  /** The first `step` characters of each of the first `c` chunks, joined. */
  function Joined(text: string, size: int, step: int, c: nat): string
    requires step > 0
  {
    if c == 0 then ""
    else
      var chunk := Chunk(text, size, step, c - 1);
      Joined(text, size, step, c - 1) + chunk[..Min(step, |chunk|)]
  }

  /** A chunk is the part of the text it stands for, whole except at the end. */
  lemma ChunkIsPart(text: string, size: int, step: int, k: nat)
    requires 0 <= size && 0 < step && k * step <= |text|
    ensures Chunk(text, size, step, k) == text[k * step..Min(k * step + size, |text|)]
  {
    MultiplyMonotone(0, k, step);
  }

  /** Neighbouring chunks share exactly the overlap, or what is left of the text if that is less. */
  lemma NeighboursShare(text: string, size: int, overlap: int, k: nat)
    requires 0 <= overlap < size
    requires (k + 1) * (size - overlap) < |text|
    ensures var step := size - overlap;
      var a, b := Chunk(text, size, step, k), Chunk(text, size, step, k + 1);
      var shared := Min(overlap, |text| - (k + 1) * step);
      0 <= shared <= |a| && shared <= |b| && a[|a| - shared..] == b[..shared]
      && a[|a| - shared..] == text[(k + 1) * step..(k + 1) * step + shared]
  {
    var step := size - overlap;
    var i, j := k * step, (k + 1) * step;
    NextMultiple(k, step);
    MultiplyMonotone(0, k, step);
    ChunkIsPart(text, size, step, k);
    ChunkIsPart(text, size, step, k + 1);
    PartsOverlap(text, i, Min(i + size, |text|), j, Min(j + size, |text|));
  }

  lemma PartsOverlap(text: string, i: nat, to: nat, j: nat, end: nat)
    requires i <= j <= to <= end <= |text|
    ensures text[i..to][j - i..] == text[j..to] == text[j..end][..to - j]
  {}

  lemma ChunkHead(text: string, size: int, step: int, k: nat)
    requires 0 < step && 0 <= size && k * step <= |text|
    ensures var chunk := Chunk(text, size, step, k);
      chunk[..Min(step, |chunk|)] == text[k * step..Min(k * step + Min(size, step), |text|)]
  {
    MultiplyMonotone(0, k, step);
  }

  lemma {:induction false} JoinedPrefix(text: string, size: int, step: int, c: nat)
    requires 0 < step <= size && (c > 0 ==> (c - 1) * step < |text|)
    ensures Joined(text, size, step, c) == text[..Clamp(c * step, |text|)]
  {
    if c > 0 {
      NextMultiple(c - 1, step);
      MultiplyMonotone(c - 2, c - 1, step);
      MultiplyMonotone(0, c - 1, step);
      JoinedPrefix(text, size, step, c - 1);
      ChunkHead(text, size, step, c - 1);
      assert text[..Clamp(c * step, |text|)] == text[..(c - 1) * step] + text[(c - 1) * step..Clamp(c * step, |text|)];
    }
  }

  lemma {:induction false} JoinedTooShort(text: string, size: int, step: int, c: nat)
    requires 0 <= size < step && (c > 0 ==> (c - 1) * step < |text|)
    ensures |Joined(text, size, step, c)| <= c * size
  {
    if c > 0 {
      NextMultiple(c - 1, size);
      MultiplyMonotone(c - 2, c - 1, step);
      MultiplyMonotone(0, c - 1, step);
      JoinedTooShort(text, size, step, c - 1);
      ChunkHead(text, size, step, c - 1);
    }
  }

  lemma CountBounds(n: nat, step: int)
    requires step > 0
    ensures ChunkCount(n, step) * step >= n
    ensures n > 0 ==> ChunkCount(n, step) > 0 && (ChunkCount(n, step) - 1) * step < n
  {
    var m := n + step - 1;
    var q := m / step;
    assert m == q * step + m % step;
    if n > 0 {
      assert m >= step;
      if q <= 0 {
        MultiplyMonotone(q, 0, step);
      }
      NextMultiple(if q > 0 then q - 1 else 0, step);
    }
  }

  /** With a negative size the first chunk is empty, and every other adds at most a step. */
  lemma {:induction false} JoinedNegativeSize(text: string, size: int, step: int, c: nat)
    requires size < 0 < step && c > 0
    ensures |Joined(text, size, step, c)| <= (c - 1) * step
  {
    if c == 1 {
      assert Chunk(text, size, step, 0) == "";
      assert Joined(text, size, step, 0) == "";
    } else {
      JoinedNegativeSize(text, size, step, c - 1);
      NextMultiple(c - 2, step);
    }
  }

  /** For every loader that can be built: joining the first step characters of every chunk
      restores the text exactly when the overlap is not negative, or the text is empty or fits
      in one chunk. The constructor lets a negative overlap through; it leaves gaps. */
  lemma RestoresTextIff(text: string, size: int, overlap: int)
    requires overlap < size
    ensures Joined(text, size, size - overlap, ChunkCount(|text|, size - overlap)) == text
        <==> overlap >= 0 || text == "" || |text| <= size
  {
    var step := size - overlap;
    var c := ChunkCount(|text|, step);
    CountBounds(|text|, step);
    if overlap >= 0 {
      JoinedPrefix(text, size, step, c);
    } else if text == "" {
      CountIsCeiling(0, step, 0);
    } else if size < 0 {
      JoinedNegativeSize(text, size, step, c);
    } else if |text| <= size {
      OneChunk(text, size, step);
    } else {
      Gap(text, size, step, c);
    }
  }

  lemma OneChunk(text: string, size: int, step: int)
    requires 0 <= size < step && |text| <= size
    ensures Joined(text, size, step, ChunkCount(|text|, step)) == text
  {
    if text == "" {
      CountIsCeiling(0, step, 0);
    } else {
      CountIsCeiling(|text|, step, 1);
      assert Chunk(text, size, step, 0) == text;
      assert Joined(text, size, step, 0) == "";
    }
  }

  lemma Gap(text: string, size: int, step: int, c: nat)
    requires 0 <= size < step && |text| > size && c > 0 && (c - 1) * step < |text|
    ensures |Joined(text, size, step, c)| < |text|
  {
    var before := (c - 1) * step;
    MultiplyMonotone(0, c - 1, step);
    ChunkHead(text, size, step, c - 1);
    assert |Joined(text, size, step, c)| <= |Joined(text, size, step, c - 1)| + Min(size, |text| - before);
    if c == 1 {
      assert Joined(text, size, step, 0) == "";
    } else {
      ShortBefore(text, size, step, c - 1);
    }
  }

  lemma ShortBefore(text: string, size: int, step: int, c: nat)
    requires 0 <= size < step && c > 0 && c * step < |text|
    ensures |Joined(text, size, step, c)| < c * step
  {
    NextMultiple(c - 1, step);
    JoinedTooShort(text, size, step, c);
    SmallerFactor(c, size, step);
  }

  lemma SmallerFactor(c: nat, size: int, step: int)
    requires c > 0 && size < step
    ensures c * size < c * step
  {}
}
