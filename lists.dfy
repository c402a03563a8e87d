/**
 * The list utilities shared, line for line, by nonstdlib/misc.py and
 * tools.py: `clamp`, `partition_list` / `yield_partitioned`, and (from
 * tools.py) `bin_list` / `yield_binned`.
 */
module Lists {
  import opened Wrappers
  import opened Seqs

  // ---------------------------------------------------------------- clamp

  /**
   * `clamp(value, lowest, highest)`: the bounds are swapped when given in
   * the wrong order, then `value` is limited to them.
   */
  function Clamp(value: int, lowest: int, highest: int): (r: int)
    ensures Min(lowest, highest) <= r <= Max(lowest, highest)
    ensures Min(lowest, highest) <= value <= Max(lowest, highest) ==> r == value
    ensures value < Min(lowest, highest) ==> r == Min(lowest, highest)
    ensures value > Max(lowest, highest) ==> r == Max(lowest, highest)
  {
    var (lo, hi) := if lowest > highest then (highest, lowest) else (lowest, highest);
    Min(Max(value, lo), hi)
  }

  /** The order of the bounds does not matter. */
  lemma ClampSwap(value: int, lowest: int, highest: int)
    ensures Clamp(value, lowest, highest) == Clamp(value, highest, lowest)
  {
  }

  /** Clamping a clamped value changes nothing. */
  lemma ClampIdempotent(value: int, lowest: int, highest: int)
    ensures Clamp(Clamp(value, lowest, highest), lowest, highest) == Clamp(value, lowest, highest)
  {
  }

  // ---------------------------------------------------- partition_list

  /**
   * `int(list_size / chunks + 0.5)` for a positive number of chunks: the
   * length divided by the number of chunks, rounded half up.
   */
  function ChunkSize(listSize: nat, chunks: nat): nat
    requires chunks > 0
  {
    (2 * listSize + chunks) / (2 * chunks)
  }

  /**
   * The chunk size is the whole number nearest to `list_size / chunks`,
   * halves rounded up: `r - 1/2 <= list_size / chunks < r + 1/2`.
   */
  lemma ChunkSizeRounds(listSize: nat, chunks: nat)
    requires chunks > 0
    ensures var r := ChunkSize(listSize, chunks);
      2 * chunks * r <= 2 * listSize + chunks < 2 * chunks * (r + 1)
  {
    var d, q := 2 * chunks, ChunkSize(listSize, chunks);
    var m := (2 * listSize + chunks) % d;
    assert 2 * listSize + chunks == d * q + m && 0 <= m < d;
    assert d * (q + 1) == d * q + d;
  }

  /** `x[i:j]` for non-negative bounds: both are clamped to the length of `x`. */
  function Slice<T>(x: seq<T>, i: nat, j: nat): seq<T> {
    var lo := Min(i, |x|);
    x[lo..Max(lo, Min(j, |x|))]
  }

  /** Where the piece at `index` starts: `index` chunks in. */
  function Offset(index: nat, chunkSize: nat): nat {
    if index == 0 then 0 else Offset(index - 1, chunkSize) + chunkSize
  }

  /** The offset is `index * chunk_size`, as the loop computes it. */
  lemma {:induction false} OffsetIsProduct(index: nat, chunkSize: nat)
    ensures Offset(index, chunkSize) == index * chunkSize
  {
    if index > 0 {
      OffsetIsProduct(index - 1, chunkSize);
      assert (index - 1) * chunkSize + chunkSize == index * chunkSize;
    }
  }

  /** The piece `yield_partitioned` produces at `index`, for chunks of `chunkSize`. */
  function Piece<T>(x: seq<T>, chunkSize: nat, index: nat): seq<T> {
    Slice(x, Offset(index, chunkSize), Offset(index, chunkSize) + chunkSize)
  }

  /** The first `n` pieces. */
  function Pieces<T>(x: seq<T>, chunkSize: nat, n: nat): (r: seq<seq<T>>)
    ensures |r| == n
  {
    seq(n, i requires 0 <= i < n => Piece(x, chunkSize, i))
  }

  /**
   * `partition_list(x, chunks)`: `chunks - 1` pieces of `chunk_size`
   * elements each, then whatever remains after them. A zero count of chunks
   * divides by zero; a negative one gives `[x]`.
   */
  function Partitioned<T>(x: seq<T>, chunks: int): (r: Result<seq<seq<T>>>)
    ensures r.Err? <==> chunks == 0
    ensures r.Err? ==> r.error == ZeroDivisionError
    ensures chunks == 1 || chunks < 0 ==> r == Ok([x])
  {
    if chunks == 0 then Err(ZeroDivisionError)
    else if chunks == 1 || chunks < 0 then Ok([x])
    else
      var size := ChunkSize(|x|, chunks);
      Ok(Pieces(x, size, chunks - 1) + [Slice(x, Offset(chunks - 1, size), |x|)])
  }

  /** `yield_partitioned` collected into a list, as `partition_list` does. */
  method PartitionList<T>(x: seq<T>, chunks: int) returns (r: Result<seq<seq<T>>>)
    ensures r == Partitioned(x, chunks)
  {
    if chunks == 0 {
      return Err(ZeroDivisionError);
    }
    var start, end := 0, 0;
    var listSize := |x|;
    // The chunk size of a negative count is never used by the loop.
    var chunkSize := if chunks > 0 then ChunkSize(listSize, chunks) else 0;
    var pieces: seq<seq<T>> := [];
    var index := 0;
    while index < chunks - 1
      invariant 0 <= index && (chunks > 1 ==> index <= chunks - 1)
      invariant chunks <= 1 ==> index == 0
      invariant end == Offset(index, chunkSize)
      invariant pieces == Pieces(x, chunkSize, index)
    {
      start := index * chunkSize;
      OffsetIsProduct(index, chunkSize);
      end := start + chunkSize;
      PiecesStep(x, chunkSize, index);
      pieces := pieces + [Slice(x, start, end)];
      index := index + 1;
    }
    pieces := pieces + [Slice(x, end, listSize)];
    if chunks == 1 || chunks < 0 {
      assert end == 0 && Slice(x, 0, listSize) == x;
      assert pieces == [x];
    } else {
      assert index == chunks - 1;
    }
    return Ok(pieces);
  }

  /** One more iteration of the loop of `yield_partitioned`. */
  lemma PiecesStep<T>(x: seq<T>, chunkSize: nat, index: nat)
    ensures Pieces(x, chunkSize, index + 1)
         == Pieces(x, chunkSize, index) + [Slice(x, Offset(index, chunkSize), Offset(index, chunkSize) + chunkSize)]
  {
    assert Pieces(x, chunkSize, index + 1)[..index] == Pieces(x, chunkSize, index);
  }

  /** A clamped slice continues the prefix that ends where it starts. */
  lemma SliceAfterPrefix<T>(x: seq<T>, a: nat, b: nat)
    requires a <= b
    ensures x[..Min(a, |x|)] + Slice(x, a, b) == x[..Min(b, |x|)]
  {
  }

  /** The first `n` pieces together are the first `n * chunkSize` elements (or all of them). */
  lemma {:induction false} PiecesConcat<T>(x: seq<T>, chunkSize: nat, n: nat)
    ensures Concat(Pieces(x, chunkSize, n)) == x[..Min(Offset(n, chunkSize), |x|)]
  {
    if n > 0 {
      PiecesConcat(x, chunkSize, n - 1);
      PiecesStep(x, chunkSize, n - 1);
      var a := Offset(n - 1, chunkSize);
      SliceAfterPrefix(x, a, a + chunkSize);
    }
  }

  /** A positive number of chunks gives exactly that many pieces. */
  lemma PartitionCount<T>(x: seq<T>, chunks: int)
    requires chunks > 0
    ensures Partitioned(x, chunks).Ok? && |Partitioned(x, chunks).value| == chunks
  {
  }

  /** The pieces are consecutive slices: together they give back the list. */
  lemma PartitionConcat<T>(x: seq<T>, chunks: int)
    requires chunks != 0
    ensures Partitioned(x, chunks).Ok? && Concat(Partitioned(x, chunks).value) == x
  {
    if chunks > 1 {
      var size := ChunkSize(|x|, chunks);
      var ps := Pieces(x, size, chunks - 1);
      var last := Slice(x, (chunks - 1) * size, |x|);
      PiecesConcat(x, size, chunks - 1);
      ConcatAppend(ps, [last]);
      assert Concat([last]) == last by {
        assert [last][..0] == [];
      }
    } else {
      assert [x][..0] == [];
    }
  }

  /**
   * Every piece but the last is the next `chunk_size` elements, or fewer
   * (possibly none) once the list runs out.
   */
  lemma PartitionPieces<T>(x: seq<T>, chunks: int, i: nat)
    requires chunks > 1 && i < chunks - 1
    ensures var size := ChunkSize(|x|, chunks);
      var start := Offset(i, size);
      var piece := Partitioned(x, chunks).value[i];
      |piece| <= size &&
      (start + size <= |x| ==> piece == x[start..start + size]) &&
      (start >= |x| ==> piece == [])
  {
  }

  // ---------------------------------------------------------- bin_list

  /** The windows of `count` consecutive elements of `x`, from the left. */
  function Windows<T>(x: seq<T>, count: nat): seq<seq<T>> {
    if count == 0 || |x| < count then [] else [x[..count]] + Windows(x[1..], count)
  }

  /** There are `len(x) - count + 1` windows (or none), and window `i` starts at `x[i]`. */
  lemma {:induction false} WindowsShape<T>(x: seq<T>, count: nat)
    requires count > 0
    ensures |Windows(x, count)| == Max(0, |x| - count + 1)
    ensures forall i :: 0 <= i < |Windows(x, count)| ==> Windows(x, count)[i] == x[i..i + count]
  {
    if |x| >= count {
      WindowsShape(x[1..], count);
      var w := Windows(x, count);
      forall i | 1 <= i < |w|
        ensures w[i] == x[i..i + count]
      {
        assert w[i] == Windows(x[1..], count)[i - 1];
        assert x[1..][i - 1..i - 1 + count] == x[i..i + count];
      }
    }
  }

  /**
   * `bin_list(x, count)`: the sliding windows; `itertools.tee` refuses a
   * negative count with `ValueError`, and a count of zero zips nothing.
   */
  function Binned<T>(x: seq<T>, count: int): (r: Result<seq<seq<T>>>)
    ensures r.Err? <==> count < 0
    ensures r.Err? ==> r.error == ValueError
  {
    if count < 0 then Err(ValueError) else Ok(Windows(x, count))
  }

  /**
   * `itertools.tee(x, count)` followed by the loop of `yield_binned` that
   * advances the view at `index` by `index` steps. A view is its position
   * in `x`.
   */
  method StaggeredViews<T>(x: seq<T>, count: nat) returns (views: array<nat>)
    ensures fresh(views) && views.Length == count
    ensures forall v :: 0 <= v < count ==> views[v] == Min(v, |x|)
  {
    views := new nat[count](_ => 0);
    for index := 0 to count
      invariant forall v :: 0 <= v < index ==> views[v] == Min(v, |x|)
    {
      var position := 0;
      for step := 0 to index
        invariant position == Min(step, |x|)
      {
        // `next(view, None)` leaves an exhausted view where it is.
        if position < |x| {
          position := position + 1;
        }
      }
      views[index] := position;
    }
  }

  /**
   * One tuple of `izip(*views)`: the next element of each view in turn,
   * stopping at the first view that is exhausted. On success every view
   * has moved one step.
   */
  method NextTuple<T>(x: seq<T>, views: array<nat>, done: nat) returns (tuple: seq<T>, ok: bool)
    requires views.Length > 0 && done <= |x|
    requires forall v :: 0 <= v < views.Length ==> views[v] == Min(v + done, |x|)
    modifies views
    ensures ok <==> done + views.Length <= |x|
    ensures ok ==> tuple == x[done..done + views.Length]
    ensures ok ==> forall v :: 0 <= v < views.Length ==> views[v] == Min(v + done + 1, |x|)
  {
    tuple := [];
    var i := 0;
    while i < views.Length && views[i] < |x|
      invariant 0 <= i <= views.Length && |tuple| == i && done + i <= |x|
      invariant forall j :: 0 <= j < i ==> tuple[j] == x[done + j]
      invariant forall v :: 0 <= v < i ==> views[v] == v + done + 1 <= |x|
      invariant forall v :: i <= v < views.Length ==> views[v] == Min(v + done, |x|)
    {
      tuple := tuple + [x[views[i]]];
      views[i] := views[i] + 1;
      i := i + 1;
    }
    ok := i == views.Length;
  }

  /**
   * `list(izip(*views))` over staggered views: a tuple at a time until a
   * view runs out.
   */
  method ZipViews<T>(x: seq<T>, views: array<nat>) returns (windows: seq<seq<T>>)
    requires views.Length > 0
    requires forall v :: 0 <= v < views.Length ==> views[v] == Min(v, |x|)
    modifies views
    ensures windows == Windows(x, views.Length)
  {
    ghost var all := Windows(x, views.Length);
    WindowsShape(x, views.Length);
    windows := [];
    var exhausted := false;
    while !exhausted
      invariant |windows| <= |all| && windows == all[..|windows|]
      invariant !exhausted ==> forall v :: 0 <= v < views.Length ==> views[v] == Min(v + |windows|, |x|)
      invariant exhausted ==> |windows| == |all|
      decreases |all| - |windows|, !exhausted
    {
      var tuple, ok := NextTuple(x, views, |windows|);
      if ok {
        assert tuple == all[|windows|];
        windows := windows + [tuple];
      } else {
        exhausted := true;
      }
    }
    assert windows == all;
  }

  /**
   * `yield_binned` collected into a list, as `bin_list` does: staggered
   * views zipped together. `tee` with no copies gives nothing to zip.
   */
  method BinList<T>(x: seq<T>, count: int := 2) returns (r: Result<seq<seq<T>>>)
    ensures r == Binned(x, count)
  {
    if count < 0 {
      return Err(ValueError);
    }
    var views := StaggeredViews(x, count);
    if count == 0 {
      return Ok([]);
    }
    var windows := ZipViews(x, views);
    return Ok(windows);
  }

  /** `bin_list` with a positive count: how many windows, and what each holds. */
  lemma BinnedShape<T>(x: seq<T>, count: int)
    requires count > 0
    ensures Binned(x, count).Ok?
    ensures |Binned(x, count).value| == Max(0, |x| - count + 1)
    ensures forall i :: 0 <= i < |Binned(x, count).value| ==>
      |Binned(x, count).value[i]| == count &&
      forall j :: 0 <= j < count ==> Binned(x, count).value[i][j] == x[i + j]
  {
    WindowsShape(x, count);
  }
}
