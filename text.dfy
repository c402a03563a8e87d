/**
 * Text formatting and parsing from nonstdlib/text.py: `plural` formatting,
 * `oxford_comma`, and the serialiser/parser pair `pretty_range` /
 * `indices_from_str` for index lists such as "1-3,5,7".
 */
module Text {
  import opened Wrappers
  import opened Seqs
  import opened Strings

  // ---------------------------------------------------------------------
  // plural
  // ---------------------------------------------------------------------

  /** `s.partition(c)`: the text before the first `c`, the separator found, the text after it. */
  function Partition(s: string, c: char): (r: (string, string, string))
    ensures c in s ==> r.1 == [c] && s == r.0 + [c] + r.2 && c !in r.0
    ensures c !in s ==> r == (s, "", "")
  {
    if |s| == 0 then ("", "", "")
    else if s[0] == c then ("", [c], s[1..])
    else
      var p := Partition(s[1..], c);
      assert s == [s[0]] + s[1..];
      ([s[0]] + p.0, p.1, p.2)
  }

  /** `s.rpartition(c)`: the text before the last `c`, the separator found, the text after it. */
  function RPartition(s: string, c: char): (r: (string, string, string))
    ensures c in s ==> r.1 == [c] && s == r.0 + [c] + r.2 && c !in r.2
    ensures c !in s ==> r == ("", "", s)
  {
    if |s| == 0 then ("", "", "")
    else if s[|s| - 1] == c then (s[..|s| - 1], [c], "")
    else
      var p := RPartition(s[..|s| - 1], c);
      assert s == s[..|s| - 1] + [s[|s| - 1]];
      (p.0, p.1, p.2 + [s[|s| - 1]])
  }

  /** The first occurrence of `c` is where `partition` cuts. */
  lemma {:induction false} PartitionAt(x: string, y: string, c: char)
    requires c !in x
    ensures Partition(x + [c] + y, c) == (x, [c], y)
  {
    var s := x + [c] + y;
    if |x| == 0 {
      assert s == [c] + y && s[1..] == y;
    } else {
      assert s[1..] == x[1..] + [c] + y;
      PartitionAt(x[1..], y, c);
      assert [x[0]] + x[1..] == x;
    }
  }

  /** The last occurrence of `c` is where `rpartition` cuts. */
  lemma {:induction false} RPartitionAt(x: string, y: string, c: char)
    requires c !in y
    ensures RPartition(x + [c] + y, c) == (x, [c], y)
  {
    var s := x + [c] + y;
    if |y| == 0 {
      assert s == x + [c] && s[..|s| - 1] == x;
    } else {
      var init := y[..|y| - 1];
      assert s[..|s| - 1] == x + [c] + init;
      RPartitionAt(x, init, c);
      assert init + [y[|y| - 1]] == y;
    }
  }

  /**
   * `format(plural(value), format)`: every `?` becomes `str(value)`; the text
   * before the first `/` is always kept, followed by the text between the
   * first and the last `/` when `value == 1`, or the text after the last `/`
   * otherwise.
   */
  function Plural(format: string, value: int): (r: string)
    ensures '?' !in r
  {
    var f := ReplaceAll(format, '?', IntToString(value));
    var (always, _, suffixes) := Partition(f, '/');
    var (singular, _, plural) := RPartition(suffixes, '/');
    assert '?' !in f by {
      ReplaceAllRemoves(format, '?', IntToString(value));
    }
    assert '?' !in suffixes && '?' !in always;
    assert '?' !in singular && '?' !in plural;
    always + (if value == 1 then singular else plural)
  }

  /** `str(value)` substituted for every `?`. */
  function Fill(s: string, value: int): string {
    ReplaceAll(s, '?', IntToString(value))
  }

  lemma FillKeepsSlashes(s: string, value: int)
    ensures '/' in Fill(s, value) <==> '/' in s
  {
    ReplaceAllKeeps(s, '?', IntToString(value), '/');
  }

  /** Filling distributes over a `/` between two texts. */
  lemma FillAroundSlash(x: string, y: string, value: int)
    ensures Fill(x + "/" + y, value) == Fill(x, value) + "/" + Fill(y, value)
  {
    var t := IntToString(value);
    ReplaceAllAppend(x + "/", y, '?', t);
    ReplaceAllAppend(x, "/", '?', t);
    assert ReplaceAll("/", '?', t) == "/";
  }

  /** Without any `/`, the whole (filled) format is printed. */
  lemma PluralNoSlash(format: string, value: int)
    requires '/' !in format
    ensures Plural(format, value) == Fill(format, value)
  {
    FillKeepsSlashes(format, value);
  }

  /** With a single `/` the singular section is empty. */
  lemma PluralOneSlash(always: string, plural: string, value: int)
    requires '/' !in always && '/' !in plural
    ensures Plural(always + "/" + plural, value)
         == Fill(always, value) + (if value == 1 then "" else Fill(plural, value))
  {
    var a, p := Fill(always, value), Fill(plural, value);
    FillAroundSlash(always, plural, value);
    FillKeepsSlashes(always, value);
    FillKeepsSlashes(plural, value);
    PartitionAt(a, p, '/');
    assert RPartition(p, '/') == ("", "", p);
  }

  /**
   * With two or more `/`, the output is the first section followed by the
   * singular (middle) or plural (last) section, each with `?` filled in.
   */
  lemma PluralSections(always: string, singular: string, plural: string, value: int)
    requires '/' !in always && '/' !in plural
    ensures Plural(always + "/" + singular + "/" + plural, value)
         == Fill(always, value) + (if value == 1 then Fill(singular, value) else Fill(plural, value))
  {
    var a, s, p := Fill(always, value), Fill(singular, value), Fill(plural, value);
    FillThreeSections(always, singular, plural, value);
    FillKeepsSlashes(always, value);
    FillKeepsSlashes(plural, value);
    PartitionAt(a, s + "/" + p, '/');
    RPartitionAt(s, p, '/');
    PluralCuts(always + "/" + singular + "/" + plural, value, a, s, p);
  }

  lemma FillThreeSections(always: string, singular: string, plural: string, value: int)
    ensures Fill(always + "/" + singular + "/" + plural, value)
         == Fill(always, value) + "/" + (Fill(singular, value) + "/" + Fill(plural, value))
  {
    assert always + "/" + singular + "/" + plural == always + "/" + (singular + "/" + plural);
    FillAroundSlash(always, singular + "/" + plural, value);
    FillAroundSlash(singular, plural, value);
  }

  /** `plural` reads its three sections off where `partition` and `rpartition` cut the filled format. */
  lemma PluralCuts(format: string, value: int, a: string, s: string, p: string)
    requires Fill(format, value) == a + "/" + (s + "/" + p)
    requires Partition(a + "/" + (s + "/" + p), '/') == (a, "/", s + "/" + p)
    requires RPartition(s + "/" + p, '/') == (s, "/", p)
    ensures Plural(format, value) == a + (if value == 1 then s else p)
  {
  }

  // ---------------------------------------------------------------------
  // oxford_comma
  // ---------------------------------------------------------------------

  /**
   * The English list phrase: "", "a", "a and b", and for three or more
   * items "a, b, and c" (with `conj` in place of "and").
   */
  function OxfordPhrase(items: seq<string>, conj: string): string {
    var n := |items|;
    if n == 0 then ""
    else if n == 1 then items[0]
    else if n == 2 then items[0] + " " + conj + " " + items[1]
    else Join(items[..n - 1], ", ") + ", " + conj + " " + items[n - 1]
  }

  /** What `oxford_comma`'s loop has built after its first `i` items. */
  ghost function OxfordPrefix(items: seq<string>, conj: string, i: nat): string
    requires i <= |items| && |items| != 2
  {
    var n := |items|;
    if i == 0 then ""
    else if i <= n - 2 then Join(items[..i], ", ") + ", "
    else if i == n - 1 then Join(items[..i], ", ") + ", " + conj + " "
    else OxfordPhrase(items, conj)
  }

  /** `oxford_comma(items, conj)`, with each item already rendered by `str`. */
  method OxfordComma(items: seq<string>, conj: string := "and") returns (result: string)
    ensures result == OxfordPhrase(items, conj)
  {
    var n := |items|;
    if n == 2 {
      return items[0] + " " + conj + " " + items[1];
    }
    result := "";
    for i := 0 to n
      invariant result == OxfordPrefix(items, conj, i)
    {
      if i == n - 1 {
        result := result + items[i];
      } else if i == n - 2 {
        result := result + items[i] + ", " + conj + " ";
      } else {
        result := result + items[i] + ", ";
      }
      if 1 <= i {
        assert items[..i + 1] == items[..i] + [items[i]];
        JoinSnoc(items[..i], items[i], ", ");
      }
      assert items[..n] == items;
    }
  }

  // ---------------------------------------------------------------------
  // sorted, used by pretty_range
  // ---------------------------------------------------------------------

  predicate Sorted(s: seq<int>) {
    forall i, j :: 0 <= i < j < |s| ==> s[i] <= s[j]
  }

  /** Every element of a list with the same elements as `s` lies above a bound of `s`. */
  lemma BoundByElements(r: seq<int>, s: seq<int>, lo: int)
    requires multiset(r) == multiset(s)
    requires forall i :: 0 <= i < |s| ==> lo <= s[i]
    ensures forall k :: 0 <= k < |r| ==> lo <= r[k]
  {
    forall k | 0 <= k < |r|
      ensures lo <= r[k]
    {
      assert r[k] in multiset(r);
      assert r[k] in s;
    }
  }

  /** Removing the first element of a list removes it from its multiset. */
  lemma MultisetTail(s: seq<int>)
    requires |s| > 0
    ensures multiset(s[1..]) == multiset(s) - multiset{s[0]}
  {
    assert s == [s[0]] + s[1..];
  }

  function Insert(s: seq<int>, v: int): (r: seq<int>)
    requires Sorted(s)
    ensures Sorted(r) && multiset(r) == multiset(s) + multiset{v}
  {
    if |s| == 0 then [v]
    else if v <= s[0] then
      SortedCons(v, s);
      [v] + s
    else
      var rest := Insert(s[1..], v);
      assert |rest| > 0 && s[0] <= rest[0] by {
        assert multiset(rest) == multiset(s[1..] + [v]);
        assert forall i :: 0 <= i < |s[1..] + [v]| ==> s[0] <= (s[1..] + [v])[i];
        BoundByElements(rest, s[1..] + [v], s[0]);
      }
      SortedCons(s[0], rest);
      assert multiset([s[0]] + rest) == multiset(s) + multiset{v} by {
        assert s == [s[0]] + s[1..];
      }
      [s[0]] + rest
  }

  /** A list stays sorted under a new head no larger than its elements. */
  lemma SortedCons(x: int, s: seq<int>)
    requires Sorted(s) && (|s| == 0 || x <= s[0])
    ensures Sorted([x] + s)
  {
  }

  /** Python's `sorted` on a list of integers. */
  function SortInts(x: seq<int>): (r: seq<int>)
    ensures Sorted(r) && multiset(r) == multiset(x)
  {
    if |x| == 0 then []
    else
      assert x == x[..|x| - 1] + [x[|x| - 1]];
      Insert(SortInts(x[..|x| - 1]), x[|x| - 1])
  }

  /** The first element of a sorted list is at most each of its elements. */
  lemma SortedHeadLeast(s: seq<int>, x: int)
    requires Sorted(s) && x in multiset(s)
    ensures s[0] <= x
  {
    var i :| 0 <= i < |s| && s[i] == x;
  }

  lemma SortedTail(s: seq<int>)
    requires Sorted(s) && |s| > 0
    ensures Sorted(s[1..])
  {
  }

  /** A sorted list is determined by its elements: sorting has one answer. */
  lemma {:induction false} SortedUnique(a: seq<int>, b: seq<int>)
    requires Sorted(a) && Sorted(b) && multiset(a) == multiset(b)
    ensures a == b
  {
    assert |a| == |b| by {
      assert |a| == |multiset(a)| && |b| == |multiset(b)|;
    }
    if |a| > 0 {
      assert a[0] == b[0] by {
        SortedHeadLeast(a, b[0]);
        SortedHeadLeast(b, a[0]);
      }
      assert a[1..] == b[1..] by {
        MultisetTail(a);
        MultisetTail(b);
        SortedTail(a);
        SortedTail(b);
        SortedUnique(a[1..], b[1..]);
      }
      assert a == [a[0]] + a[1..] && b == [b[0]] + b[1..];
    }
  }

  // ---------------------------------------------------------------------
  // pretty_range
  // ---------------------------------------------------------------------

  /** Every element is the first plus its offset: a run of consecutive integers. */
  predicate Consecutive(run: seq<int>) {
    forall j :: 0 <= j < |run| ==> run[j] == run[0] + j
  }

  /**
   * The maximal runs of consecutive integers of `s`, in order: `pretty_range`
   * starts a new run exactly when the next number is not the last one plus 1.
   */
  function Runs(s: seq<int>): (runs: seq<seq<int>>)
    ensures forall k :: 0 <= k < |runs| ==> |runs[k]| > 0
  {
    if |s| == 0 then []
    else
      var runs := Runs(s[..|s| - 1]);
      var x := s[|s| - 1];
      if |runs| > 0 && x == Last(Last(runs)) + 1 then
        runs[..|runs| - 1] + [Last(runs) + [x]]
      else
        runs + [[x]]
  }

  /** The runs cover `s`, in order. */
  lemma {:induction false} RunsCover(s: seq<int>)
    ensures Concat(Runs(s)) == s
  {
    if |s| > 0 {
      var init, x := s[..|s| - 1], s[|s| - 1];
      RunsCover(init);
      var runs, r := Runs(init), Runs(s);
      assert s == init + [x];
      if |runs| > 0 && x == Last(Last(runs)) + 1 {
        var front := runs[..|runs| - 1];
        assert runs == front + [Last(runs)];
        assert r[..|r| - 1] == front;
        calc {
          Concat(r);
          Concat(front) + (Last(runs) + [x]);
          Concat(front) + Last(runs) + [x];
          { assert Concat(runs) == Concat(front) + Last(runs); }
          init + [x];
        }
      } else {
        assert r[..|r| - 1] == runs;
      }
    }
  }

  /** Each run is a range of consecutive integers. */
  lemma {:induction false} RunsConsecutive(s: seq<int>)
    ensures forall k :: 0 <= k < |Runs(s)| ==> Consecutive(Runs(s)[k])
  {
    if |s| > 0 {
      var init, x := s[..|s| - 1], s[|s| - 1];
      RunsConsecutive(init);
      var runs, r := Runs(init), Runs(s);
      if |runs| > 0 && x == Last(Last(runs)) + 1 {
        assert Consecutive(Last(runs));
        assert r[..|r| - 1] == runs[..|runs| - 1];
        assert Consecutive(Last(r));
      } else {
        assert r[..|r| - 1] == runs;
      }
    }
  }

  /** Two adjacent runs could not have been merged into one. */
  lemma {:induction false} RunsAreMaximal(s: seq<int>)
    ensures forall k :: 0 <= k < |Runs(s)| - 1 ==> Runs(s)[k + 1][0] != Last(Runs(s)[k]) + 1
  {
    if |s| > 0 {
      var init, x := s[..|s| - 1], s[|s| - 1];
      RunsAreMaximal(init);
      var runs, r := Runs(init), Runs(s);
      if |runs| > 0 && x == Last(Last(runs)) + 1 {
        assert r[..|r| - 1] == runs[..|runs| - 1];
        assert Last(r)[0] == Last(runs)[0];
      } else {
        assert r[..|r| - 1] == runs;
      }
    }
  }

  /** `make_blocks`: a run of one or two numbers is written out, a longer one as `first-last`. */
  function MakeBlocks(run: seq<int>): seq<string> {
    if |run| == 0 then []
    else if |run| == 1 then [IntToString(run[0])]
    else if |run| == 2 then [IntToString(run[0]), IntToString(run[1])]
    else [IntToString(run[0]) + "-" + IntToString(run[|run| - 1])]
  }

  /** The blocks of all runs, in order. */
  function BlocksOf(runs: seq<seq<int>>): seq<string> {
    if |runs| == 0 then [] else BlocksOf(runs[..|runs| - 1]) + MakeBlocks(runs[|runs| - 1])
  }

  /** A number that does not follow the last run starts a new run. */
  lemma RunsStart(s: seq<int>, x: int)
    requires |Runs(s)| == 0 || x != Last(Last(Runs(s))) + 1
    ensures Runs(s + [x]) == Runs(s) + [[x]]
  {
    assert (s + [x])[..|s|] == s;
  }

  /** A number that follows the last run extends it. */
  lemma RunsExtend(s: seq<int>, x: int, done: seq<seq<int>>, current: seq<int>)
    requires Runs(s) == done + [current] && |current| > 0 && x == Last(current) + 1
    ensures Runs(s + [x]) == done + [current + [x]]
  {
    assert (s + [x])[..|s|] == s;
    assert (done + [current])[..|done|] == done;
  }

  lemma BlocksOfSnoc(runs: seq<seq<int>>, run: seq<int>)
    ensures BlocksOf(runs + [run]) == BlocksOf(runs) + MakeBlocks(run)
  {
    assert (runs + [run])[..|runs|] == runs;
  }

  /** The text `pretty_range(x)` returns: the blocks of the runs of `sorted(x)`, joined by `,`. */
  function PrettyRangeSpec(x: seq<int>): string {
    Join(BlocksOf(Runs(SortInts(x))), ",")
  }

  /** How the runs of a prefix of `s` grow by the next element. */
  lemma RunsStep(s: seq<int>, k: nat, done: seq<seq<int>>, current: seq<int>)
    requires 0 < k < |s| && Runs(s[..k]) == done + [current] && |current| > 0
    ensures s[k] != Last(current) + 1 ==> Runs(s[..k + 1]) == (done + [current]) + [[s[k]]]
    ensures s[k] == Last(current) + 1 ==> Runs(s[..k + 1]) == done + [current + [s[k]]]
  {
    assert s[..k + 1] == s[..k] + [s[k]];
    if s[k] != Last(current) + 1 {
      RunsStart(s[..k], s[k]);
    } else {
      RunsExtend(s[..k], s[k], done, current);
    }
  }

  /** The first element of `s` makes the first run. */
  lemma RunsFirst(s: seq<int>)
    requires |s| > 0
    ensures Runs(s[..1]) == [] + [[s[0]]]
  {
    assert s[..1] == [] + [s[0]];
    RunsStart([], s[0]);
  }

  /** `pretty_range(x)`. */
  method PrettyRange(x: seq<int>) returns (r: string)
    ensures r == PrettyRangeSpec(x)
  {
    var s := SortInts(x);
    var blocks: seq<string> := [];
    var current: seq<int> := [];
    ghost var done: seq<seq<int>> := [];
    for k := 0 to |s|
      invariant k == 0 ==> done == [] && current == []
      invariant k > 0 ==> Runs(s[..k]) == done + [current] && |current| > 0
      invariant blocks == BlocksOf(done)
    {
      var i := s[k];
      if k == 0 {
        RunsFirst(s);
        current := [i];
      } else if i != current[|current| - 1] + 1 {
        RunsStep(s, k, done, current);
        blocks := blocks + MakeBlocks(current);
        BlocksOfSnoc(done, current);
        done := done + [current];
        current := [i];
      } else {
        RunsStep(s, k, done, current);
        current := current + [i];
      }
    }
    if |s| > 0 {
      assert s[..|s|] == s;
    } else {
      assert Runs(s) == [];
    }
    BlocksOfSnoc(done, current);
    blocks := blocks + MakeBlocks(current);
    r := Join(blocks, ",");
  }

  /** `pretty_range` depends only on the multiset of its input. */
  lemma PrettyRangePermutation(x: seq<int>, y: seq<int>)
    requires multiset(x) == multiset(y)
    ensures PrettyRangeSpec(x) == PrettyRangeSpec(y)
  {
    SortedUnique(SortInts(x), SortInts(y));
  }

  // ---------------------------------------------------------------------
  // indices_from_str
  // ---------------------------------------------------------------------

  /** `[k - start for k in range(i, j + 1)]`. */
  function RangeFrom(i: int, j: int, start: int): (r: seq<int>)
    ensures |r| == Max(0, j + 1 - i)
    ensures forall n :: 0 <= n < |r| ==> r[n] == i + n - start
  {
    seq(Max(0, j + 1 - i), n => i + n - start)
  }

  /**
   * One stripped block: `(\d+)(-(\d+))?` is matched at its start. A block
   * that does not start with a digit has no match, and taking a group of
   * the missing match raises `AttributeError`. With the optional `-j` part
   * the block stands for `i..j`, otherwise for `i` alone; anything after
   * the match is ignored.
   */
  function ParseBlock(block: string, start: int): (r: Result<seq<int>>)
    ensures r.Err? <==> |block| == 0 || !IsDigit(block[0])
    ensures r.Err? ==> r.error == AttributeError
  {
    if |block| == 0 || !IsDigit(block[0]) then Err(AttributeError)
    else
      var k := RunLength(block, IsDigit);
      ReadBlock(DigitsValue(block[..k]), block[k..], start)
  }

  /** The block after its leading number `i`: `i..j` when the group `-(\d+)` follows, else `i` alone. */
  function ReadBlock(i: nat, tail: string, start: int): Result<seq<int>> {
    match UpperBound(tail)
    case Some(j) => Ok(RangeFrom(i, j, start))
    case None => Ok([i - start])
  }

  /** The optional group `-(\d+)` at the start of `rest`: the number after the dash. */
  function UpperBound(rest: string): (r: Option<nat>)
    ensures r.Some? <==> |rest| >= 2 && rest[0] == '-' && IsDigit(rest[1])
  {
    if |rest| >= 2 && rest[0] == '-' && IsDigit(rest[1]) then
      var m := RunLength(rest[1..], IsDigit);
      Some(DigitsValue(rest[1..][..m]))
    else
      None
  }

  /** The whole of a digit string after the dash is the upper bound. */
  lemma UpperBoundOfDigits(e: string)
    requires |e| > 0 && AllDigits(e)
    ensures UpperBound("-" + e) == Some(DigitsValue(e))
  {
    assert ("-" + e)[1..] == e;
    RunLengthUnique(e, IsDigit, |e|);
    assert e[..|e|] == e;
  }

  /** The indices one comma-separated block stands for: a blank block stands for none. */
  function BlockIndices(block: string, start: int): Result<seq<int>> {
    var b := Strip(Unicode, block);
    if |b| == 0 then Ok([]) else ParseBlock(b, start)
  }

  /** Each block's own result, in order. */
  function EachBlock(blocks: seq<string>, start: int): (rs: seq<Result<seq<int>>>)
    ensures |rs| == |blocks|
    ensures forall k :: 0 <= k < |blocks| ==> rs[k] == BlockIndices(blocks[k], start)
  {
    seq(|blocks|, k requires 0 <= k < |blocks| => BlockIndices(blocks[k], start))
  }

  /**
   * The per-block results read first to last: the first error is raised,
   * otherwise the indices are concatenated.
   */
  function Collect(rs: seq<Result<seq<int>>>): Result<seq<int>> {
    if |rs| == 0 then Ok([])
    else
      var prev := Collect(rs[..|rs| - 1]);
      if prev.Err? then prev
      else
        match rs[|rs| - 1]
        case Err(e) => Err(e)
        case Ok(v) => Ok(prev.value + v)
  }

  /** What `indices_from_str(x, start)` returns or raises. */
  function ParseIndices(x: string, start: int): Result<seq<int>> {
    Collect(EachBlock(Split(x, ','), start))
  }

  /** `indices_from_str(x, start)`. */
  method IndicesFromStr(x: string, start: int := 0) returns (r: Result<seq<int>>)
    ensures r == ParseIndices(x, start)
  {
    var blocks := Split(x, ',');
    var indices: seq<int> := [];
    for n := 0 to |blocks|
      invariant Collect(EachBlock(blocks, start)[..n]) == Ok(indices)
    {
      var block := Strip(Unicode, blocks[n]);
      IndicesStep(blocks, start, n, indices);
      if |block| == 0 {
        continue;
      }
      var parsed := ParseBlock(block, start);
      if parsed.Err? {
        return Err(parsed.error);
      }
      indices := indices + parsed.value;
    }
    assert EachBlock(blocks, start)[..|blocks|] == EachBlock(blocks, start);
    return Ok(indices);
  }

  /** One turn of `indices_from_str`'s loop, on block `n`. */
  lemma IndicesStep(blocks: seq<string>, start: int, n: nat, indices: seq<int>)
    requires n < |blocks| && Collect(EachBlock(blocks, start)[..n]) == Ok(indices)
    ensures var b := Strip(Unicode, blocks[n]);
      && (|b| == 0 ==> Collect(EachBlock(blocks, start)[..n + 1]) == Ok(indices))
      && (|b| > 0 && ParseBlock(b, start).Ok? ==>
            Collect(EachBlock(blocks, start)[..n + 1]) == Ok(indices + ParseBlock(b, start).value))
      && (|b| > 0 && ParseBlock(b, start).Err? ==>
            Collect(EachBlock(blocks, start)) == ParseBlock(b, start))
  {
    var rs := EachBlock(blocks, start);
    var b := Strip(Unicode, blocks[n]);
    if |b| == 0 {
      assert rs[n] == Ok([]);
      CollectStepOk(rs, n, indices, []);
      assert indices + [] == indices;
    } else if ParseBlock(b, start).Ok? {
      CollectStepOk(rs, n, indices, ParseBlock(b, start).value);
    } else {
      CollectStepErr(rs, n);
    }
  }

  /**
   * Reading two lists of results in turn: an error in the first wins, then
   * an error in the second, and otherwise the indices are concatenated.
   */
  lemma {:induction false} CollectAppend(a: seq<Result<seq<int>>>, b: seq<Result<seq<int>>>)
    ensures Collect(a + b)
         == if Collect(a).Err? then Collect(a)
            else if Collect(b).Err? then Collect(b)
            else Ok(Collect(a).value + Collect(b).value)
  {
    if |b| == 0 {
      assert a + b == a;
      if Collect(a).Ok? {
        assert Collect(a).value + [] == Collect(a).value;
      }
    } else {
      var init, last := b[..|b| - 1], b[|b| - 1];
      assert (a + b)[..|a + b| - 1] == a + init;
      assert (a + b)[|a + b| - 1] == last;
      CollectAppend(a, init);
      if Collect(a).Ok? && Collect(init).Ok? && last.Ok? {
        var pa, pi := Collect(a).value, Collect(init).value;
        assert pa + pi + last.value == pa + (pi + last.value);
      }
    }
  }

  /** A block that parses extends the indices read so far. */
  lemma CollectStepOk(rs: seq<Result<seq<int>>>, n: nat, prev: seq<int>, v: seq<int>)
    requires n < |rs| && Collect(rs[..n]) == Ok(prev) && rs[n] == Ok(v)
    ensures Collect(rs[..n + 1]) == Ok(prev + v)
  {
    assert rs[..n + 1][..n] == rs[..n];
  }

  /** The first block that fails decides the outcome of the whole parse. */
  lemma CollectStepErr(rs: seq<Result<seq<int>>>, n: nat)
    requires n < |rs| && Collect(rs[..n]).Ok? && rs[n].Err?
    ensures Collect(rs) == rs[n]
  {
    assert rs[..n + 1][..n] == rs[..n];
    CollectAppend(rs[..n + 1], rs[n + 1..]);
    assert rs[..n + 1] + rs[n + 1..] == rs;
  }

  /** Parsing fails exactly when some block fails, and with the first failing block's error. */
  lemma {:induction false} CollectFails(rs: seq<Result<seq<int>>>)
    ensures Collect(rs).Err? <==> exists k :: 0 <= k < |rs| && rs[k].Err?
    ensures Collect(rs).Err? ==>
      exists k :: 0 <= k < |rs| && rs[k].Err? && Collect(rs) == rs[k]
        && forall j :: 0 <= j < k ==> rs[j].Ok?
  {
    if |rs| > 0 {
      var init := rs[..|rs| - 1];
      CollectFails(init);
      if exists k :: 0 <= k < |init| && init[k].Err? {
        var k :| 0 <= k < |init| && init[k].Err? && Collect(init) == init[k]
          && forall j :: 0 <= j < k ==> init[j].Ok?;
        assert rs[k] == init[k];
        assert forall j :: 0 <= j < k ==> rs[j] == init[j];
      } else {
        assert forall j :: 0 <= j < |rs| - 1 ==> rs[j] == init[j];
      }
    }
  }

  /** A block that parses to an error is a non-blank block that does not start with a digit. */
  lemma BlockIndicesFails(block: string, start: int)
    ensures BlockIndices(block, start).Err?
        <==> |Strip(Unicode, block)| > 0 && !IsDigit(Strip(Unicode, block)[0])
    ensures BlockIndices(block, start).Err? ==> BlockIndices(block, start).error == AttributeError
  {
  }

  /** A block that starts with the digits `d` is read as `d`, then the optional group on what follows. */
  lemma ParseBlockAt(d: string, tail: string, start: int)
    requires |d| > 0 && AllDigits(d)
    requires |tail| > 0 ==> !IsDigit(tail[0])
    ensures ParseBlock(d + tail, start) == ReadBlock(DigitsValue(d), tail, start)
  {
    var block := d + tail;
    assert block[0] == d[0];
    RunLengthUnique(block, IsDigit, |d|);
    assert block[..|d|] == d;
    assert block[|d|..] == tail;
  }

  /** The optional group reads the digits `e` after the dash and stops at the first non-digit. */
  lemma UpperBoundThenText(e: string, rest: string)
    requires |e| > 0 && AllDigits(e)
    requires |rest| > 0 ==> !IsDigit(rest[0])
    ensures UpperBound("-" + e + rest) == Some(DigitsValue(e))
  {
    var tail := "-" + e + rest;
    assert tail[1..] == e + rest;
    RunLengthUnique(e + rest, IsDigit, |e|);
    assert (e + rest)[..|e|] == e;
  }

  /**
   * Text after the digits of a block is ignored, as long as it does not
   * extend the digits or begin the optional `-(\d+)` group.
   */
  lemma ParseBlockNumberThenText(d: string, rest: string, start: int)
    requires |d| > 0 && AllDigits(d)
    requires |rest| > 0 ==> !IsDigit(rest[0]) && !(rest[0] == '-' && |rest| >= 2 && IsDigit(rest[1]))
    ensures ParseBlock(d + rest, start) == Ok([DigitsValue(d) - start])
  {
    ParseBlockAt(d, rest, start);
    assert UpperBound(rest).None?;
  }

  /** Text after a range `d-e` is ignored, as long as it does not extend the digits of `e`. */
  lemma ParseBlockRangeThenText(d: string, e: string, rest: string, start: int)
    requires |d| > 0 && AllDigits(d) && |e| > 0 && AllDigits(e)
    requires |rest| > 0 ==> !IsDigit(rest[0])
    ensures ParseBlock(d + "-" + e + rest, start)
         == Ok(RangeFrom(DigitsValue(d), DigitsValue(e), start))
  {
    var tail := "-" + e + rest;
    assert d + "-" + e + rest == d + tail;
    ParseBlockAt(d, tail, start);
    UpperBoundThenText(e, rest);
  }

  /** A block of digits `d` stands for the single index `int(d) - start`. */
  lemma ParseBlockNumber(d: string, start: int)
    requires |d| > 0 && AllDigits(d)
    ensures ParseBlock(d, start) == Ok([DigitsValue(d) - start])
  {
    ParseBlockNumberThenText(d, "", start);
    assert d + "" == d;
  }

  /** A block `i-j` of two digit strings stands for `i..j`, shifted by `-start`. */
  lemma ParseBlockRange(d: string, e: string, start: int)
    requires |d| > 0 && AllDigits(d) && |e| > 0 && AllDigits(e)
    ensures ParseBlock(d + "-" + e, start)
         == Ok(RangeFrom(DigitsValue(d), DigitsValue(e), start))
  {
    ParseBlockRangeThenText(d, e, "", start);
    assert d + "-" + e + "" == d + "-" + e;
  }

  /** A non-empty block without whitespace is parsed as it stands. */
  lemma BlockIndicesPlain(block: string, start: int)
    requires |block| > 0 && NoWhitespace(Unicode, block)
    ensures BlockIndices(block, start) == ParseBlock(block, start)
  {
    StripNoWhitespace(Unicode, block);
  }

  // ---------------------------------------------------------------------
  // pretty_range and indices_from_str are inverse
  // ---------------------------------------------------------------------

  /** A run of non-negative consecutive integers. */
  predicate GoodRun(run: seq<int>) {
    |run| > 0 && Consecutive(run) && run[0] >= 0
  }

  /** `s` is a decimal numeral of `v`. */
  predicate Numeral(s: string, v: int) {
    |s| > 0 && AllDigits(s) && DigitsValue(s) == v
  }

  /** `b` is `i-j`: a numeral of `i`, a dash, and a numeral of `j`. */
  predicate RangeBlock(b: string, i: int, j: int) {
    var k := RunLength(b, IsDigit);
    k < |b| && b[k] == '-' && Numeral(b[..k], i) && Numeral(b[k + 1..], j)
  }

  /**
   * The blocks of one run: a run of one or two numbers gives one numeral
   * per number, a longer run the single block `first-last`; no block holds
   * a comma or whitespace.
   */
  lemma MakeBlocksShape(run: seq<int>)
    requires GoodRun(run)
    ensures |MakeBlocks(run)| > 0
    ensures |run| <= 2 ==> |MakeBlocks(run)| == |run|
    ensures |run| <= 2 ==> forall k :: 0 <= k < |run| ==> Numeral(MakeBlocks(run)[k], run[k])
    ensures |run| > 2 ==> |MakeBlocks(run)| == 1 && RangeBlock(MakeBlocks(run)[0], run[0], run[|run| - 1])
    ensures forall k :: 0 <= k < |MakeBlocks(run)| ==>
      |MakeBlocks(run)[k]| > 0 && NoWhitespace(Unicode, MakeBlocks(run)[k]) && ',' !in MakeBlocks(run)[k]
  {
    MakeBlocksForm(run);
    MakeBlocksClean(run);
  }

  lemma MakeBlocksForm(run: seq<int>)
    requires GoodRun(run)
    ensures |run| <= 2 ==> |MakeBlocks(run)| == |run|
    ensures |run| <= 2 ==> forall k :: 0 <= k < |run| ==> Numeral(MakeBlocks(run)[k], run[k])
    ensures |run| > 2 ==> |MakeBlocks(run)| == 1 && RangeBlock(MakeBlocks(run)[0], run[0], run[|run| - 1])
  {
    if |run| > 2 {
      RangeBlockOf(NatToString(run[0]), NatToString(run[|run| - 1]), run[0], run[|run| - 1]);
    }
  }

  lemma MakeBlocksClean(run: seq<int>)
    requires GoodRun(run)
    ensures |MakeBlocks(run)| > 0
    ensures forall k :: 0 <= k < |MakeBlocks(run)| ==>
      |MakeBlocks(run)[k]| > 0 && NoWhitespace(Unicode, MakeBlocks(run)[k]) && ',' !in MakeBlocks(run)[k]
  {
    var a := NatToString(run[0]);
    var b := NatToString(run[|run| - 1]);
    assert ',' !in a && ',' !in b;
    assert NoWhitespace(Unicode, a) && NoWhitespace(Unicode, b);
    if |run| == 2 {
      assert ',' !in NatToString(run[1]) && NoWhitespace(Unicode, NatToString(run[1]));
    }
  }

  lemma RangeBlockOf(a: string, b: string, i: int, j: int)
    requires Numeral(a, i) && Numeral(b, j)
    ensures RangeBlock(a + "-" + b, i, j)
  {
    var block := a + "-" + b;
    RunLengthUnique(block, IsDigit, |a|);
    assert block[..|a|] == a;
    assert block[|a| + 1..] == b;
  }

  lemma EachBlockAppend(a: seq<string>, b: seq<string>, start: int)
    ensures EachBlock(a + b, start) == EachBlock(a, start) + EachBlock(b, start)
  {
    assert forall k :: 0 <= k < |a| ==> (a + b)[k] == a[k];
    assert forall k :: |a| <= k < |a + b| ==> (a + b)[k] == b[k - |a|];
  }

  lemma CollectOne(r: Result<seq<int>>)
    ensures Collect([r]) == r
  {
    assert [r][..0] == [];
    if r.Ok? {
      assert [] + r.value == r.value;
    }
  }

  /** A numeral block parses back to its number. */
  lemma NumeralParse(v: nat)
    ensures BlockIndices(NatToString(v), 0) == Ok([v])
  {
    var a := NatToString(v);
    assert NoWhitespace(Unicode, a);
    BlockIndicesPlain(a, 0);
    ParseBlockNumber(a, 0);
  }

  /** The blocks of one run parse back to that run. */
  lemma MakeBlocksParse(run: seq<int>)
    requires GoodRun(run)
    ensures Collect(EachBlock(MakeBlocks(run), 0)) == Ok(run)
  {
    if |run| == 1 {
      SingleBlockParse(run);
    } else if |run| == 2 {
      PairBlockParse(run);
    } else {
      RangeBlockParse(run);
    }
  }

  lemma SingleBlockParse(run: seq<int>)
    requires GoodRun(run) && |run| == 1
    ensures Collect(EachBlock(MakeBlocks(run), 0)) == Ok(run)
  {
    var a := NatToString(run[0]);
    assert MakeBlocks(run) == [a];
    assert EachBlock([a], 0) == [Ok([run[0]])] by {
      NumeralParse(run[0]);
    }
    CollectOne(Ok([run[0]]));
    assert run == [run[0]];
  }

  lemma PairBlockParse(run: seq<int>)
    requires GoodRun(run) && |run| == 2
    ensures Collect(EachBlock(MakeBlocks(run), 0)) == Ok(run)
  {
    var a, b := NatToString(run[0]), NatToString(run[1]);
    NumeralParse(run[0]);
    NumeralParse(run[1]);
    assert MakeBlocks(run) == [a, b];
    assert EachBlock([a, b], 0) == [Ok([run[0]])] + [Ok([run[1]])];
    CollectAppend([Ok([run[0]])], [Ok([run[1]])]);
    CollectOne(Ok([run[0]]));
    CollectOne(Ok([run[1]]));
    assert run == [run[0]] + [run[1]];
  }

  lemma RangeBlockParse(run: seq<int>)
    requires GoodRun(run) && |run| > 2
    ensures Collect(EachBlock(MakeBlocks(run), 0)) == Ok(run)
  {
    var a := NatToString(run[0]);
    var z := NatToString(run[|run| - 1]);
    var block := a + "-" + z;
    assert MakeBlocks(run) == [block];
    assert NoWhitespace(Unicode, block);
    BlockIndicesPlain(block, 0);
    ParseBlockRange(a, z, 0);
    var r := RangeFrom(run[0], run[|run| - 1], 0);
    assert |r| == |run|;
    assert forall n :: 0 <= n < |r| ==> r[n] == run[n];
    assert r == run;
    assert EachBlock([block], 0) == [Ok(r)];
    CollectOne(Ok(r));
  }

  /** The blocks of a list of runs parse back to the runs' concatenation. */
  lemma {:induction false} BlocksOfParse(runs: seq<seq<int>>)
    requires forall k :: 0 <= k < |runs| ==> GoodRun(runs[k])
    ensures Collect(EachBlock(BlocksOf(runs), 0)) == Ok(Concat(runs))
  {
    if |runs| > 0 {
      var init, last := runs[..|runs| - 1], runs[|runs| - 1];
      BlocksOfParse(init);
      MakeBlocksParse(last);
      EachBlockAppend(BlocksOf(init), MakeBlocks(last), 0);
      CollectAppend(EachBlock(BlocksOf(init), 0), EachBlock(MakeBlocks(last), 0));
    }
  }

  /** No block holds a comma. */
  predicate CommaFree(blocks: seq<string>) {
    forall k :: 0 <= k < |blocks| ==> ',' !in blocks[k]
  }

  lemma CommaFreeAppend(a: seq<string>, b: seq<string>)
    requires CommaFree(a) && CommaFree(b)
    ensures CommaFree(a + b)
  {
    forall k | 0 <= k < |a + b|
      ensures ',' !in (a + b)[k]
    {
      if k >= |a| {
        assert (a + b)[k] == b[k - |a|];
      } else {
        assert (a + b)[k] == a[k];
      }
    }
  }

  /** The blocks of a list of good runs are non-empty in number and free of commas. */
  lemma {:induction false} BlocksOfShape(runs: seq<seq<int>>)
    requires forall k :: 0 <= k < |runs| ==> GoodRun(runs[k])
    ensures |runs| > 0 ==> |BlocksOf(runs)| > 0
    ensures CommaFree(BlocksOf(runs))
  {
    if |runs| > 0 {
      var init, last := runs[..|runs| - 1], runs[|runs| - 1];
      assert forall k :: 0 <= k < |init| ==> init[k] == runs[k];
      BlocksOfShape(init);
      MakeBlocksShape(last);
      CommaFreeAppend(BlocksOf(init), MakeBlocks(last));
    }
  }

  /**
   * Round trip: for non-negative indices, `indices_from_str(pretty_range(x))`
   * gives back `sorted(x)`.
   */
  lemma RoundTrip(x: seq<int>)
    requires forall i :: 0 <= i < |x| ==> x[i] >= 0
    ensures ParseIndices(PrettyRangeSpec(x), 0) == Ok(SortInts(x))
  {
    var s := SortInts(x);
    var runs := Runs(s);
    RunsCover(s);
    RunsConsecutive(s);
    forall k | 0 <= k < |runs|
      ensures GoodRun(runs[k])
    {
      ConcatHas(runs, k, 0);
      assert runs[k][0] in multiset(x);
    }
    BlocksOfParse(runs);
    BlocksOfShape(runs);
    var blocks := BlocksOf(runs);
    if |runs| == 0 {
      assert blocks == [];
      assert Split("", ',') == [""];
      CollectOne(BlockIndices("", 0));
    } else {
      SplitJoin(blocks, ',');
    }
  }
}
