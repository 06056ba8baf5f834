/**
 * The 2048 line merge (week1_2048_merge.py, repeated in poc_2048_template.py).
 *
 * A line is a row or column of tiles, 0 meaning an empty cell.  `Merge` is the
 * source's nested loop over an output buffer; it is proved equal to
 * `MergeSpec`: compress the non-zero tiles to the front, then combine equal
 * neighbours left to right, each tile at most once, and pad with zeros.
 */
module Merge {

  /** Sum of all tiles of a line. */
  function Sum(s: seq<int>): int
  {
    if s == [] then 0 else s[0] + Sum(s[1..])
  }

  /** Number of non-zero tiles of a line. */
  function NonZeros(s: seq<int>): (r: nat)
    ensures r <= |s|
  {
    if s == [] then 0 else (if s[0] != 0 then 1 else 0) + NonZeros(s[1..])
  }

  /** Every tile of `s` is non-zero. */
  predicate AllNonZero(s: seq<int>)
  {
    forall i :: 0 <= i < |s| ==> s[i] != 0
  }

  /** Zeros appear only after the last non-zero tile. */
  predicate Packed(s: seq<int>)
  {
    forall i, j :: 0 <= i < j < |s| && s[i] == 0 ==> s[j] == 0
  }

  /** The non-zero tiles of `line`, in their order. */
  function Compress(line: seq<int>): (r: seq<int>)
    ensures AllNonZero(r)
    ensures |r| == NonZeros(line)
  {
    if line == [] then []
    else if line[0] == 0 then Compress(line[1..])
    else [line[0]] + Compress(line[1..])
  }

  /**
   * Reference definition: combine equal adjacent tiles left to right, a
   * combined tile taking no further part.
   */
  function CombinePairs(s: seq<int>): seq<int>
  {
    if |s| < 2 then s
    else if s[0] == s[1] then [2 * s[0]] + CombinePairs(s[2..])
    else [s[0]] + CombinePairs(s[1..])
  }

  /** Whether the last tile of `s` was consumed by `CombinePairs` as the right half of a pair. */
  function LastCombined(s: seq<int>): bool
  {
    if |s| < 2 then false
    else if s[0] == s[1] then (if |s| == 2 then true else LastCombined(s[2..]))
    else LastCombined(s[1..])
  }

  /** `s` followed by zeros up to length `n`. */
  function Pad(s: seq<int>, n: nat): (r: seq<int>)
    requires |s| <= n
    ensures |r| == n
  {
    s + seq(n - |s|, _ => 0)
  }

  /** What `merge` returns for `line`. */
  function MergeSpec(line: seq<int>): (r: seq<int>)
    ensures |r| == |line|
  {
    if |line| < 2 then line
    else
      CombinePairsLength(Compress(line));
      Pad(CombinePairs(Compress(line)), |line|)
  }

  /** The loop state of `merge`: the occupied prefix of `result_line` and `last_merge`. */
  datatype Buffer = Buffer(tiles: seq<int>, lastMerge: bool)

  /** One pass of the outer loop of `merge`, for tile `t`. */
  function Step(b: Buffer, t: int): Buffer
  {
    if t == 0 then b
    else if |b.tiles| > 0 && b.tiles[|b.tiles| - 1] == t && !b.lastMerge then
      Buffer(b.tiles[..|b.tiles| - 1] + [2 * t], true)
    else Buffer(b.tiles + [t], false)
  }

  /** The loop state of `merge` after all of `line` has been scanned. */
  function Slide(line: seq<int>): Buffer
  {
    if line == [] then Buffer([], false)
    else Step(Slide(line[..|line| - 1]), line[|line| - 1])
  }

  // ---------------------------------------------------------------------------
  // The loop.

  /**
   * The source's `merge`.  `buf` is `result_line`, whose occupied prefix
   * `state.tiles` grows by at most one slot per scanned tile.
   */
  method Merge(line: seq<int>) returns (result: seq<int>)
    ensures result == MergeSpec(line)
  {
    if |line| < 2 {
      return line;
    }
    var n := |line|;
    var buf := new int[n](_ => 0);
    var lastMerge := false;
    ghost var state := Buffer([], false);
    for i := 0 to n
      invariant state == Slide(line[..i])
      invariant |state.tiles| <= i && AllNonZero(state.tiles)
      invariant lastMerge == state.lastMerge
      invariant buf[..] == Pad(state.tiles, n)
    {
      assert line[..i + 1][..i] == line[..i];
      if line[i] != 0 {
        lastMerge := SettleTile(buf, lastMerge, line[i], state.tiles);
      }
      StepKeepsNonZero(state, line[i]);
      state := Step(state, line[i]);
    }
    assert line[..n] == line;
    SlideIsCombinePairs(line);
    result := buf[..];
  }

  /**
   * The inner `for new_line_index` loop of `merge`: scan `buf` for the first
   * free slot, or for the last occupied slot when it holds `t`, was not itself
   * produced by a merge, and is followed by a free slot.  The look-ahead
   * `buf[j + 1]` is in bounds because the occupied prefix is shorter than `buf`.
   */
  method SettleTile(buf: array<int>, lastMerge: bool, t: int, ghost tiles: seq<int>)
    returns (lastMerge': bool)
    requires t != 0 && AllNonZero(tiles) && |tiles| < buf.Length
    requires buf[..] == Pad(tiles, buf.Length)
    modifies buf
    ensures buf[..] == Pad(Step(Buffer(tiles, lastMerge), t).tiles, buf.Length)
    ensures lastMerge' == Step(Buffer(tiles, lastMerge), t).lastMerge
  {
    var n, k := buf.Length, |tiles|;
    lastMerge' := lastMerge;
    for j := 0 to n
      invariant j <= k
      invariant buf[..] == Pad(tiles, n)
      invariant j == k && k > 0 ==> !(tiles[k - 1] == t && !lastMerge)
    {
      if buf[j] == 0 {
        assert j == k;
        buf[j] := t;
        lastMerge' := false;
        PadPlace(tiles, n, t);
        return;
      } else if buf[j + 1] == 0 {
        assert j + 1 == k;
        if buf[j] == t && !lastMerge {
          buf[j] := buf[j] + t;
          lastMerge' := true;
          PadCombine(tiles, n, t);
          return;
        }
      }
    }
  }

  lemma StepKeepsNonZero(b: Buffer, t: int)
    requires AllNonZero(b.tiles)
    ensures AllNonZero(Step(b, t).tiles)
    ensures |Step(b, t).tiles| <= |b.tiles| + 1
  {
  }

  /** Filling the first free slot of a padded buffer. */
  lemma PadPlace(tiles: seq<int>, n: nat, t: int)
    requires |tiles| < n
    ensures Pad(tiles, n)[|tiles| := t] == Pad(tiles + [t], n)
  {
  }

  /** Combining `t` into the last occupied slot of a padded buffer that holds `t`. */
  lemma PadCombine(tiles: seq<int>, n: nat, t: int)
    requires 0 < |tiles| <= n && tiles[|tiles| - 1] == t
    ensures Pad(tiles, n)[|tiles| - 1 := t + t] == Pad(tiles[..|tiles| - 1] + [2 * t], n)
  {
  }

  // ---------------------------------------------------------------------------
  // Lemmas.

  lemma CombinePairsLength(s: seq<int>)
    ensures |CombinePairs(s)| <= |s|
    ensures |s| > 0 ==> |CombinePairs(s)| > 0
  {
  }

  lemma {:induction false} CompressSnoc(line: seq<int>, t: int)
    ensures Compress(line + [t]) == Compress(line) + (if t == 0 then [] else [t])
  {
    if line != [] {
      assert (line + [t])[1..] == line[1..] + [t];
      CompressSnoc(line[1..], t);
    }
  }

  /** A `Step` on a buffer with a tile in front acts on the rest of the buffer. */
  lemma StepCons(x: int, b: Buffer, t: int)
    requires |b.tiles| > 0
    ensures Step(Buffer([x] + b.tiles, b.lastMerge), t)
         == Buffer([x] + Step(b, t).tiles, Step(b, t).lastMerge)
  {
    var n := |b.tiles|;
    assert ([x] + b.tiles)[..n] == [x] + b.tiles[..n - 1];
  }

  /** Appending a non-zero tile to the input of `CombinePairs` is one `Step`. */
  lemma {:induction false} CombinePairsSnoc(s: seq<int>, t: int)
    requires t != 0
    ensures Step(Buffer(CombinePairs(s), LastCombined(s)), t)
         == Buffer(CombinePairs(s + [t]), LastCombined(s + [t]))
  {
    var st := s + [t];
    if |s| < 2 {
    } else if s[0] == s[1] {
      var rest := s[2..];
      assert st[2..] == rest + [t];
      assert CombinePairs(st) == [2 * s[0]] + CombinePairs(rest + [t]);
      assert LastCombined(st) == LastCombined(rest + [t]);
      if rest == [] {
        assert CombinePairs(s) == [2 * s[0]] && LastCombined(s);
      } else {
        CombinePairsSnoc(rest, t);
        CombinePairsLength(rest);
        StepCons(2 * s[0], Buffer(CombinePairs(rest), LastCombined(rest)), t);
      }
    } else {
      var rest := s[1..];
      assert st[1..] == rest + [t];
      assert CombinePairs(st) == [s[0]] + CombinePairs(rest + [t]);
      assert LastCombined(st) == LastCombined(rest + [t]);
      CombinePairsSnoc(rest, t);
      CombinePairsLength(rest);
      StepCons(s[0], Buffer(CombinePairs(rest), LastCombined(rest)), t);
    }
  }

  /** The loop's state is the reference combination of the compressed line. */
  lemma {:induction false} SlideIsCombinePairs(line: seq<int>)
    ensures Slide(line) == Buffer(CombinePairs(Compress(line)), LastCombined(Compress(line)))
  {
    if line != [] {
      var init, t := line[..|line| - 1], line[|line| - 1];
      assert line == init + [t];
      assert Slide(line) == Step(Slide(init), t);
      SlideIsCombinePairs(init);
      CompressSnoc(init, t);
      if t != 0 {
        assert Compress(line) == Compress(init) + [t];
        CombinePairsSnoc(Compress(init), t);
      } else {
        assert Compress(line) == Compress(init);
      }
    }
  }

  // ---------------------------------------------------------------------------
  // What `merge` promises.

  lemma {:induction false} SumAppend(a: seq<int>, b: seq<int>)
    ensures Sum(a + b) == Sum(a) + Sum(b)
  {
    if a != [] {
      assert (a + b)[1..] == a[1..] + b;
      SumAppend(a[1..], b);
    } else {
      assert a + b == b;
    }
  }

  lemma {:induction false} NonZerosAppend(a: seq<int>, b: seq<int>)
    ensures NonZeros(a + b) == NonZeros(a) + NonZeros(b)
  {
    if a != [] {
      assert (a + b)[1..] == a[1..] + b;
      NonZerosAppend(a[1..], b);
    } else {
      assert a + b == b;
    }
  }

  lemma {:induction false} ZerosHaveNoWeight(k: nat)
    ensures Sum(seq(k, _ => 0)) == 0 && NonZeros(seq(k, _ => 0)) == 0
  {
    if k > 0 {
      assert seq(k, _ => 0)[1..] == seq(k - 1, _ => 0);
      ZerosHaveNoWeight(k - 1);
    }
  }

  lemma {:induction false} CompressKeepsSum(line: seq<int>)
    ensures Sum(Compress(line)) == Sum(line)
  {
    if line != [] {
      CompressKeepsSum(line[1..]);
    }
  }

  lemma {:induction false} CombinePairsKeepsSum(s: seq<int>)
    ensures Sum(CombinePairs(s)) == Sum(s)
  {
    if |s| >= 2 {
      if s[0] == s[1] {
        CombinePairsKeepsSum(s[2..]);
        assert s[1..][1..] == s[2..];
      } else {
        CombinePairsKeepsSum(s[1..]);
      }
    }
  }

  lemma {:induction false} CombinePairsKeepsNonZero(s: seq<int>)
    requires AllNonZero(s)
    ensures AllNonZero(CombinePairs(s))
  {
    if |s| >= 2 {
      if s[0] == s[1] {
        CombinePairsKeepsNonZero(s[2..]);
      } else {
        CombinePairsKeepsNonZero(s[1..]);
      }
    }
  }

  lemma {:induction false} AllNonZeroCount(s: seq<int>)
    requires AllNonZero(s)
    ensures NonZeros(s) == |s|
  {
    if s != [] {
      AllNonZeroCount(s[1..]);
    }
  }

  /** Merging preserves the sum of the tiles of a line. */
  lemma MergeKeepsSum(line: seq<int>)
    ensures Sum(MergeSpec(line)) == Sum(line)
  {
    if |line| >= 2 {
      var c := CombinePairs(Compress(line));
      CombinePairsLength(Compress(line));
      SumAppend(c, seq(|line| - |c|, _ => 0));
      ZerosHaveNoWeight(|line| - |c|);
      CombinePairsKeepsSum(Compress(line));
      CompressKeepsSum(line);
    }
  }

  /** In a merged line the non-zero tiles come first and the zeros last. */
  lemma MergePacksTiles(line: seq<int>)
    ensures Packed(MergeSpec(line))
  {
    if |line| >= 2 {
      CombinePairsKeepsNonZero(Compress(line));
    }
  }

  /** A merged line never has more non-zero tiles than the line it came from. */
  lemma MergeNeverAddsTiles(line: seq<int>)
    ensures NonZeros(MergeSpec(line)) <= NonZeros(line)
    ensures |line| >= 2 ==> NonZeros(MergeSpec(line)) == |CombinePairs(Compress(line))|
  {
    if |line| >= 2 {
      var c := CombinePairs(Compress(line));
      CombinePairsLength(Compress(line));
      var z := seq(|line| - |c|, _ => 0);
      assert MergeSpec(line) == c + z;
      CombinePairsKeepsNonZero(Compress(line));
      AllNonZeroCount(c);
      NonZerosAppend(c, z);
      ZerosHaveNoWeight(|line| - |c|);
    }
  }

  /** The worked examples beside the source's `merge`. */
  lemma MergeExampleGap()
    ensures MergeSpec([2, 0, 2, 4]) == [4, 4, 0, 0]
  {
    assert Compress([2, 0, 2, 4]) == [2, 2, 4];
    assert CombinePairs([2, 2, 4]) == [4, 4];
  }

  lemma MergeExampleTrailingPair()
    ensures MergeSpec([0, 0, 2, 2]) == [4, 0, 0, 0]
  {
    assert Compress([0, 0, 2, 2]) == [2, 2];
    assert CombinePairs([2, 2]) == [4];
  }

  lemma MergeExampleLeadingPair()
    ensures MergeSpec([2, 2, 0, 0]) == [4, 0, 0, 0]
  {
    assert Compress([2, 2, 0, 0]) == [2, 2];
    assert CombinePairs([2, 2]) == [4];
  }

  /** A tile produced by a merge is not merged again: four 2s give two 4s. */
  lemma MergeExampleNoDoubleMerge()
    ensures MergeSpec([2, 2, 2, 2]) == [4, 4, 0, 0]
  {
    assert Compress([2, 2, 2, 2]) == [2, 2, 2, 2];
    assert CombinePairs([2, 2]) == [4];
    assert CombinePairs([2, 2, 2, 2]) == [4, 4];
  }

  lemma MergeExampleMiddlePair()
    ensures MergeSpec([8, 16, 16, 8]) == [8, 32, 8, 0]
  {
    assert Compress([8, 16, 16, 8]) == [8, 16, 16, 8];
    assert CombinePairs([16, 16, 8]) == [32, 8];
    assert CombinePairs([8, 16, 16, 8]) == [8, 32, 8];
  }
}
