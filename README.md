# nonstdlib, modelled in Dafny

This project models the deterministic core of `nonstdlib`, a grab-bag of
Python helpers, and proves properties of the model:

- **Text** (`text.dfy`, nonstdlib/text.py): the `plural` format
  specification (`"{:? thing/s}"`), `oxford_comma`, and the serialiser and
  parser pair `pretty_range` / `indices_from_str` for index lists such as
  `"1-3,5,7"`. The two are proved to be a round trip.
- **Cast** (`cast.dfy`, nonstdlib/cast.py): `minutes`, which passes an
  integer through and parses `"1h30"`, `"1h"` or `"90m"`.
- **Approx** (`approx.dfy`, nonstdlib/approx.py): the `approx` wrapper.
  Its `==` compares numbers, or sequences element-wise over `zip`, within
  one absolute tolerance.
- **Lists** (`lists.dfy`, nonstdlib/misc.py and tools.py, which hold the
  same code): `clamp`, `partition_list` / `yield_partitioned` and
  `bin_list` / `yield_binned` (sliding windows).
- **WordWrap** (`wordwrap.dfy`, string.py): `wrap`, a greedy word wrapper.
- **Arguments** (`arguments.dfy`, arguments.py): the classification of
  command-line arguments into flags, options and positional arguments, and
  the query functions over the result. `has_flag` and `has_option` are the
  predicates `CommandLine.HasFlag` and `CommandLine.HasOption`. `positional`,
  `flags` and `options` are the fields of `CommandLine`.
- **Meta** (`meta.dfy`, nonstdlib/meta.py and classes.py): `memoize`, a
  grow-only cache, and `singleton`, an at-most-once instance table guarded
  by a check of the class's `__init__` signature. classes.py holds a copy
  of the same `singleton`.
- **Testing** (`testing.dfy`, testing.py): the bookkeeping of the small
  test framework. This covers suite registration and run order, the test
  names, the outcome of one test, and the runner's counters.

Shared pieces:

- `wrappers.dfy` holds `Option`, `Result` and the Python exception kinds a
  `Result` can carry.
- `seqs.dfy` holds `Min`, `Max` and concatenation of a list of lists.
- `strings.dfy` holds the character classes, numerals, `join`, `split`,
  `strip` and `replace`.

Python exceptions become `Err(...)` results, `None` becomes `None` of
`Option`, and Python integers are unbounded, as Dafny's are. Code that
changes state step by step keeps that form. Loops are `method`s proved
against a specification function. Objects whose fields the source updates
are classes: `CommandLine`, `Memoized`, `SingletonFactory`, `Suite` and
`Runner`. `bin_list`'s staggered iterators are an array of positions.

## Model

| member | source | states |
|---|---|---|
| Text.Partition | nonstdlib/text.py:33 | `partition`: when the separator occurs, the text is the part before it, the separator and the part after it, and the part before holds no separator; otherwise the whole text comes first |
| Text.RPartition | nonstdlib/text.py:34 | `rpartition`: as `partition`, but cutting at the last separator, so the part after it holds none; without a separator the whole text comes last |
| Text.PartitionAt | nonstdlib/text.py:33 | `partition` cuts at the first separator: `x + "/" + y` with no `/` in `x` splits into `x` and `y` |
| Text.RPartitionAt | nonstdlib/text.py:34 | `rpartition` cuts at the last separator: `x + "/" + y` with no `/` in `y` splits into `x` and `y` |
| Text.Plural | nonstdlib/text.py:31-35 | no `?` survives in the output: every `?` is replaced by `str(value)` before the format is cut |
| Text.FillKeepsSlashes | nonstdlib/text.py:32 | replacing `?` by a number neither adds nor removes a `/` |
| Text.FillAroundSlash | nonstdlib/text.py:32 | replacing `?` distributes over the sections around a `/`, so `?` is filled in every section |
| Text.PluralNoSlash | nonstdlib/text.py:32-35 | a format without `/` is printed whole, with `?` filled in |
| Text.PluralOneSlash | nonstdlib/text.py:32-35 | with a single `/`, the singular section is empty: value 1 prints the first section only, any other value prints the first section then the last one |
| Text.PluralSections | nonstdlib/text.py:32-35 | with two `/`, the first section is followed by the middle section when value is 1 and by the last section otherwise |
| Text.OxfordComma | nonstdlib/text.py:38-50 | the loop builds `""`, `a`, `a conj b`, or `a, b, conj c` for three or more items |
| Text.Insert | nonstdlib/text.py:67 | inserting into a sorted list keeps it sorted and adds exactly that element |
| Text.SortInts | nonstdlib/text.py:67 | `sorted(x)` is sorted and a permutation of `x` |
| Text.SortedHeadLeast | nonstdlib/text.py:67 | the head of a sorted list is its least element |
| Text.SortedUnique | nonstdlib/text.py:67 | two sorted lists with the same elements are equal, so `sorted` has one answer |
| Text.Runs | nonstdlib/text.py:67-71 | every run that `pretty_range` collects is non-empty |
| Text.RunsCover | nonstdlib/text.py:67-73 | the runs, concatenated, give back the sorted input |
| Text.RunsConsecutive | nonstdlib/text.py:68-71 | each run is a range of consecutive integers |
| Text.RunsAreMaximal | nonstdlib/text.py:68-70 | a new run starts only where the next number is not the previous plus one |
| Text.RunsStart | nonstdlib/text.py:68-71 | a number that does not follow the current run starts a new run |
| Text.RunsExtend | nonstdlib/text.py:68-71 | a number that follows the current run extends it |
| Text.PrettyRange | nonstdlib/text.py:52-74 | the loop returns the blocks of the maximal runs of `sorted(x)`, joined by commas |
| Text.PrettyRangePermutation | nonstdlib/text.py:67 | `pretty_range` depends only on the multiset of its input |
| Text.MakeBlocks | nonstdlib/text.py:56-64 | `make_blocks`; what its blocks look like is stated by MakeBlocksShape, and that they parse back to the run by MakeBlocksParse |
| Text.MakeBlocksShape | nonstdlib/text.py:56-64 | for a run of consecutive non-negative numbers: a run of one or two numbers gives one numeral per number, a longer run the single block `first-last` (a numeral, a dash, a numeral); no block is empty or holds a comma or whitespace |
| Text.ParseBlock | nonstdlib/text.py:89-95 | a block fails exactly when it is empty or does not start with a digit, and then fails with `AttributeError`, because `re.match` gave `None`; what a matching block stands for is stated by ParseBlockNumberThenText and ParseBlockRangeThenText |
| Text.UpperBoundOfDigits | nonstdlib/text.py:80 | the optional group `-(\d+)` reads the whole digit string after the dash |
| Text.UpperBound | nonstdlib/text.py:80 | the optional group `-(\d+)` matches exactly when a dash is followed by a digit |
| Text.UpperBoundThenText | nonstdlib/text.py:80 | the group reads the digits after the dash and stops at the first non-digit |
| Text.ParseBlockNumberThenText | nonstdlib/text.py:80-95 | a block of digits `d` followed by text that neither extends the digits nor starts `-` plus a digit stands for `int(d) - start`: the text is ignored, so `1-` gives `[1]` |
| Text.ParseBlockRangeThenText | nonstdlib/text.py:80-95 | a block `d-e` followed by text that does not start with a digit stands for `d..e` shifted by `-start`: the text is ignored |
| Text.IndicesFromStr | nonstdlib/text.py:76-97 | the loop returns the parse specification: the indices of the comma-separated blocks (EachBlock, one result per block, in order), or the first block's error |
| Text.CollectFails | nonstdlib/text.py:83-95 | parsing fails exactly when some block fails, and then with the error of the first failing block |
| Text.BlockIndicesFails | nonstdlib/text.py:84-90 | a failing block is non-blank after `strip` and does not start with a digit, and it fails with `AttributeError` |
| Text.ParseBlockNumber | nonstdlib/text.py:89-95 | a block of digits `d` stands for the single index `int(d) - start` |
| Text.ParseBlockRange | nonstdlib/text.py:89-93 | a block `i-j` stands for `i..j` inclusive, each shifted by `-start` (RangeFrom: `max(0, j + 1 - i)` indices, the n-th `i + n - start`) |
| Text.BlockIndicesPlain | nonstdlib/text.py:84-87 | a non-empty block without whitespace is parsed as it stands |
| Text.NumeralParse | nonstdlib/text.py:60-95 | `str(v)` for `v >= 0` parses back to `[v]` |
| Text.MakeBlocksParse | nonstdlib/text.py:56-95 | the blocks of one run of non-negative numbers parse back to that run |
| Text.BlocksOfParse | nonstdlib/text.py:69-95 | the blocks of all runs parse back to the runs' concatenation |
| Text.BlocksOfShape | nonstdlib/text.py:69-74 | good runs give at least one block, and no block holds a comma |
| Text.RoundTrip | nonstdlib/text.py:52-97 | for non-negative indices, `indices_from_str(pretty_range(x))` is `sorted(x)` |
| Cast.Minutes | nonstdlib/cast.py:5-16 | an `int` is returned unchanged, a parsed string is never negative, and a failure is `ValueError` |
| Cast.MinutesRejects | nonstdlib/cast.py:9-11 | a string is rejected exactly when it does not start with digits followed by `h` or `m` |
| Cast.OptionalMinutesAt | nonstdlib/cast.py:9-14 | the optional group after `h` is the digit run that follows, or 0 when there is none |
| Cast.MinutesHoursAt | nonstdlib/cast.py:9-16 | `Nh...` counts sixty minutes for each hour, plus the optional minutes group |
| Cast.MinutesHoursMinutes | nonstdlib/cast.py:9-16 | `NhM` gives `60 * N + M`: the minutes are not range-checked and trailing text is ignored |
| Cast.MinutesOnly | nonstdlib/cast.py:9-16 | `Nm` gives N minutes, whatever follows |
| Cast.MinutesRejectsBareNumbers | nonstdlib/cast.py:9-11 | a bare number without a unit, such as "0" or "90", raises `ValueError` |
| Approx.ZipAllClose | nonstdlib/approx.py:19 | element-wise comparison holds exactly when every pair within the shorter length differs by less than the tolerance |
| Approx.Equals | nonstdlib/approx.py:6-21 | the wrapper holds the expected value and a tolerance, 1e-5 by default (MakeApprox); comparing a number with a sequence is a `TypeError`, and only that case fails |
| Approx.ScalarBoundary | nonstdlib/approx.py:21 | the test is strict: a difference of exactly the tolerance is unequal, and half of it is equal |
| Approx.EqualsSymmetric | nonstdlib/approx.py:13-21 | swapping the actual and the expected value does not change the answer |
| Approx.ZipAllSymmetric | nonstdlib/approx.py:19 | the element-wise test is symmetric in its two sequences |
| Approx.ScalarReflexive | nonstdlib/approx.py:21 | a number equals itself exactly when the tolerance is positive |
| Approx.SequenceReflexive | nonstdlib/approx.py:19 | a non-empty sequence equals itself exactly when the tolerance is positive |
| Approx.LengthMismatchUndetected | nonstdlib/approx.py:19 | `zip` stops at the shorter side, so extending the expected sequence past the actual one changes nothing |
| Approx.EmptyEqualsAll | nonstdlib/approx.py:19 | the empty sequence equals every sequence, on either side |
| Lists.Clamp | nonstdlib/misc.py:19-22 | the result lies between the bounds, given in either order; a value inside is kept, and one outside becomes the nearer bound |
| Lists.ClampSwap | tools.py:14-19 | swapping the two bounds does not change the result |
| Lists.ClampIdempotent | tools.py:14-19 | clamping twice is clamping once |
| Lists.ChunkSize | nonstdlib/misc.py:37 | `chunk_size`; ChunkSizeRounds states that it rounds `size / chunks` half up |
| Lists.ChunkSizeRounds | nonstdlib/misc.py:37 | `int(size / chunks + 0.5)` is `size / chunks` rounded half up |
| Lists.OffsetIsProduct | nonstdlib/misc.py:40 | the start of piece `index` is `index * chunk_size` |
| Lists.Pieces | nonstdlib/misc.py:39-42 | the loop yields `chunks - 1` pieces |
| Lists.PartitionList | nonstdlib/misc.py:25-44 | the loop returns the pieces of `partition_list`: `ZeroDivisionError` for 0 chunks, `[x]` for 1 or fewer, else `chunks - 1` slices then the rest |
| Lists.Partitioned | tools.py:23-24 | reference definition of `partition_list`: it fails exactly for 0 chunks, with `ZeroDivisionError`, and gives `[x]` for 1 or fewer chunks |
| Lists.PiecesConcat | nonstdlib/misc.py:39-42 | the first n pieces, concatenated, are the prefix of `x` up to `n * chunk_size` |
| Lists.PartitionCount | tools.py:23-45 | a positive number of chunks gives exactly that many pieces |
| Lists.PartitionConcat | tools.py:23-45 | for any non-zero number of chunks, the pieces concatenate back to the list |
| Lists.PartitionPieces | tools.py:39-43 | each piece but the last is at most `chunk_size` long: a full slice where it fits and empty past the end |
| Lists.WindowsShape | tools.py:57-65 | there are `max(0, len - count + 1)` windows, and window i is `x[i..i+count]` |
| Lists.StaggeredViews | tools.py:59-63 | the i-th copy of the iterator is advanced by i, stopping at the end |
| Lists.NextTuple | tools.py:65 | `zip` yields the next tuple exactly while every view has an element left, and that tuple is the next window |
| Lists.ZipViews | tools.py:65 | zipping the staggered views gives the sliding windows of `x` |
| Lists.BinList | tools.py:29-65 | `bin_list` returns the sliding windows, and a negative count is a `ValueError` |
| Lists.Binned | tools.py:29-30 | reference definition of `bin_list`: it fails exactly for a negative count, with `ValueError` |
| Lists.BinnedShape | tools.py:29-65 | for a positive count: the number of windows, each of length `count`, with element j of window i being `x[i + j]` |
| WordWrap.SpaceSplit | string.py:11 | `re.split('( )+', s)` always returns at least one piece |
| WordWrap.SpaceSplitAlternates | string.py:11 | the pieces alternate: words without spaces at even positions and a single `" "` at odd ones; a leading space gives an empty first word |
| WordWrap.SpaceSplitKeepsNonWhitespace | string.py:11 | splitting keeps every non-whitespace character, in order |
| WordWrap.SpaceSplitJoin | string.py:11 | on text without double spaces, the pieces concatenate back to the text |
| WordWrap.Wrap | string.py:6-25 | the loop returns the lines of the greedy fill, joined by newlines |
| WordWrap.FillIndents | string.py:7-21 | every line starts with the indent, `indent * ' '` (Spaces, `max(0, indent)` spaces) |
| WordWrap.FillLineLengths | string.py:17-21 | a line is at most `columns - 2` long, unless it is the bare indent or the indent plus one stripped word that did not fit |
| WordWrap.FillKeepsNonWhitespace | string.py:16-23 | filling keeps every non-whitespace character of the words, in order |
| WordWrap.WrapLineShape | string.py:6-25 | every output line starts with the indent and obeys the length bound above |
| WordWrap.WrapKeepsNonWhitespace | string.py:6-25 | wrapping keeps exactly the non-whitespace text of the input, in order |
| WordWrap.WrapEmpty | string.py:13-25 | empty input gives the indent, or the indent twice on two lines when the indent leaves no room |
| Arguments.FlagMatch | arguments.py:45-50 | `-(\w+)` matches exactly when a dash is followed by a word character, and captures the longest run of word characters |
| Arguments.OptionValueMatch | arguments.py:46 | `=(\S+)` matches exactly when `=` is followed by a character other than the six ASCII spaces ` \t\n\r\v\f` (the pattern has no `re.UNICODE` flag), and captures the longest such run |
| Arguments.OptionValueWhole | arguments.py:46 | a value free of the six ASCII spaces is captured whole after `=`, U+001C to U+001F included |
| Arguments.OptionNamedA | arguments.py:46 | `--a=v`, for such a value `v`, is the option `a` with value `v` |
| Arguments.SeparatorsInOptionValues | arguments.py:46-51 | `--a=\x1cb` and `--a=x\x1fy` keep their whole values |
| Arguments.OptionMatch | arguments.py:46-51 | `--(\w+)` matches exactly when two dashes are followed by a word character; the name is the longest word run after them, and the value is what `(?:=(\S+))?` matches right after the name |
| Arguments.KindOf | arguments.py:53-62 | the flag pattern wins over the option pattern, and anything neither matches is positional |
| Arguments.Classify | arguments.py:48-62 | reference definition of the loop, filing the arguments left to right; its properties are FlagsInOrder, PositionalInOrder, EachArgumentFiledOnce, OptionsPresent and OptionsLastWins |
| Arguments.CommandLine.constructor | arguments.py:38-62 | drops the program name, then files every argument in order into flags, options and positional arguments |
| Arguments.CommandLine.Index | arguments.py:70-74 | `index(i)` gives a positional argument exactly when `-count <= i < count`, counting from the end for negative `i`, and `None` otherwise |
| Arguments.CommandLine.First | arguments.py:82-83 | `first()` is `index(0)`, present exactly when there is a positional argument |
| Arguments.CommandLine.Second | arguments.py:85-86 | `second()` is `index(1)`, present exactly when there are two |
| Arguments.CommandLine.Third | arguments.py:88-89 | `third()` is `index(2)`, present exactly when there are three |
| Arguments.CommandLine.Empty | arguments.py:76-80 | `empty()` holds exactly when `count()` (Count, the number of positional arguments) is 0, and exactly when `first()` is `None` |
| Arguments.CommandLine.Flag | arguments.py:91-92 | `flag(name, yes, no)` is `yes` exactly when the flag was given |
| Arguments.CommandLine.HasFlag | arguments.py:113-114 | `has_flag(name)` holds exactly when some argument is the flag `-name` |
| Arguments.CommandLine.HasOption | arguments.py:116-117 | `has_option(name)` holds exactly when some argument is the option `--name`, with or without a value |
| Arguments.CommandLine.GetOption | arguments.py:97-108 | `option(...)`: an empty `values` raises `IndexError`; the stored value (`None` when given without one) or else the default (`values[0]` when values are given) is cast; with `values`, the result is returned exactly when it is in `values` and `AssertionError` is raised otherwise; without `values` it is always returned |
| Arguments.CommandLine.HasAny | arguments.py:119-123 | holds exactly when some name is a flag or an option, so it fails with no names |
| Arguments.CommandLine.HasAll | arguments.py:125-130 | holds exactly when every name is a flag or an option, so it holds with no names |
| Arguments.FlagsInOrder | arguments.py:53-55 | the flags are the words of the flag arguments, in command-line order |
| Arguments.PositionalInOrder | arguments.py:61-62 | the positional arguments are those neither pattern matches, in command-line order |
| Arguments.EachArgumentFiledOnce | arguments.py:48-62 | the flags, the positional arguments and the option arguments together number the arguments: each is filed exactly once |
| Arguments.OptionsPresent | arguments.py:57-59 | an option name is present exactly when some argument names it |
| Arguments.FlagsPresent | arguments.py:53-55 | a flag word is present exactly when some argument is that flag |
| Arguments.OptionsLastWins | arguments.py:59 | a repeated option holds the value of the last argument that names it |
| Arguments.DoubleDashIsNoFlag | arguments.py:45-50 | `--name` never matches the flag pattern |
| Arguments.DashesArePositional | arguments.py:45-62 | `-` and `--` on their own are positional arguments |
| Arguments.OptionWithoutValue | arguments.py:102-103 | with the identity cast, an option given without a value is `None`, not the default, and an absent option is the default |
| Meta.MemoCallTransparent | nonstdlib/meta.py:10-15 | with a cache that agrees with the function, a memoized call answers what the function answers, and the cache still agrees |
| Meta.MemoCallGrows | nonstdlib/meta.py:8-15 | entries are never changed or removed, and a call adds only its own arguments, and only when the function returned |
| Meta.MemoCallThenHit | nonstdlib/meta.py:11-12 | after a call that returned, the same arguments are answered from the cache |
| Meta.MemoCall | nonstdlib/meta.py:10-15 | reference definition of one call of the wrapper; its properties are MemoCallTransparent, MemoCallGrows and MemoCallThenHit |
| Meta.Memoized.constructor | nonstdlib/meta.py:7-8 | `memoize(function)` starts with an empty cache |
| Meta.Memoized.Call | nonstdlib/meta.py:10-15 | the wrapper's result is the function's result; the function runs only on a cache miss; the cache and call-log invariant is kept |
| Meta.CheckInit | nonstdlib/meta.py:51-66 | a rejected `__init__` raises `TypeError`, and one that cannot be inspected is accepted |
| Meta.CheckInitAccepts | classes.py:16-31 | an inspectable `__init__` is accepted exactly when it takes `self` alone, with no `*args` and no `**kwargs` |
| Meta.CheckInitRejects | classes.py:28-31 | an extra argument, `*args` or `**kwargs` each raise `TypeError` |
| Meta.SingletonFactory.constructor | nonstdlib/meta.py:40-83 | the factory starts with an empty instance table |
| Meta.SingletonFactory.GetInstance | nonstdlib/meta.py:68-80 | the first call constructs the instance; every later call returns the same object without constructing again |
| Meta.Singleton | classes.py:5-48 | decorating fails with `TypeError` exactly when the `__init__` check fails, and otherwise gives a factory with an empty table |
| Meta.SameInstanceTwice | classes.py:33-45 | two calls of `get_instance` give the same object, constructed once |
| Testing.CheckArguments | testing.py:79-87 | a function is accepted exactly when it takes one argument, and rejected with `TypeError` otherwise |
| Testing.TestName | testing.py:138 | a test name is as long as the function name and holds no `_`; TestNameChars gives it character by character |
| Testing.Capitalize | testing.py:138 | `capitalize` keeps the length, upper-cases the first character and lower-cases the rest |
| Testing.ReplaceCharAt | testing.py:138 | replacing one character by another keeps the length and changes only that character |
| Testing.TestNameChars | testing.py:138 | a test name has the function name's length, `_` becomes a space, the first other character is upper case and the rest lower case |
| Testing.StepsRun | testing.py:142-153 | setup always runs first; the test function runs exactly when setup did not raise; teardown runs exactly when neither setup nor the test raised; the steps keep that order |
| Testing.RunTest | testing.py:142-153 | a test fails exactly when setup, the test function or teardown raised |
| Testing.FailureAtLastStep | testing.py:144-150 | a test fails exactly when the last step that ran raised |
| Testing.RunAllInOrder | testing.py:53-56 | there is one result per test, in registration order |
| Testing.UpdateConsistent | testing.py:193-202 | `update` keeps `successes + failures == test` and a first failure exactly when there were failures, and never replaces the first failure |
| Testing.Updated | testing.py:193-202 | one `update` counts one more test, one more success or failure as the result says, and never replaces a first failure |
| Testing.UpdateAllCounts | testing.py:163-202 | from fresh counters, the runner counts every result and its successes, and keeps the first failing result |
| Testing.Suite.Iterate | testing.py:21-23 | iterating gives the results once the suite is finished, and `AssertionError` before |
| Testing.Suite.constructor | testing.py:9-19 | a new suite has no tests and no results, is not finished, and has the no-op setup and teardown |
| Testing.Suite.SetTitle | testing.py:35-36 | `set_title` changes only the title |
| Testing.Suite.Setup | testing.py:64-66 | the setup is replaced only by a function taking one argument |
| Testing.Suite.Teardown | testing.py:75-77 | the teardown is replaced only by a function taking one argument |
| Testing.Suite.AddTest | testing.py:68-73 | a valid test is appended with its derived name and the setup and teardown current at registration, so `get_tests` (TestCount) grows by one; a rejected one is not added |
| Testing.Suite.Run | testing.py:50-61 | runs the tests in order, appends one result each, feeds each result to the runner's `update`, then sets `finished` |
| Testing.Runner.Update | testing.py:193-202 | the counters move exactly as the `update` specification says |
| Testing.Runner.constructor | testing.py:160-169 | a new runner has all counters at zero and no first failure |
| Testing.Runner.Run | testing.py:178-187 | records the number of tests, then the suite's results and the runner's counters follow from running every registered test; the suite's tests, title, setup and teardown are left as they were |

## Left out

- Terminal output is not modelled. This covers `Runner`'s drawing methods, `write_debug_info`, the output that `Test.run` captures and its traceback text, and the `__main__` blocks of arguments.py, nonstdlib/meta.py, classes.py, testing.py and string.py.
- `command()` in arguments.py is not modelled: it uses `os.path.basename` and `splitext` on `sys.argv[0]`. The argument list is passed to `CommandLine`'s constructor instead of being read from `sys.argv`, and that list must hold the program name that `sys.argv` always holds.
- Arguments.CommandLine.GetOption: Python values are a small datatype (`None`, a string or an integer), and `cast` is a total function on it. A cast that raises is not modelled.
- Characters outside ASCII are not modelled. The regular-expression classes `\d`, `\w` and `\S` are their ASCII forms, as for a pattern without `re.UNICODE` under Python 2; the `unicode` strings of nonstdlib/text.py under Python 3 would also accept other Unicode digits and letters. `capitalize` is likewise ASCII.
- Whitespace depends on the string type (Strings.StrType). `block.strip()` in nonstdlib/text.py works on `unicode` strings (`unicode_literals`), which also strip U+001C to U+001F. `word.strip()` in string.py and `\S` in arguments.py work on Python 2 byte strings, where only ` \t\n\r\v\f` are spaces; `wrap` is modelled for byte strings.
- Arguments.CommandLine.Flag: the defaults `yes=True, no=False` of arguments.py:91 are not given, since `Flag` is generic in the type of `yes` and `no`; `Flag(name, true, false)` is that call.
- Floating point is not modelled. `approx` works on exact reals: NaN, infinities, rounding error and `__repr__` are left out, and Python's `Iterable` test becomes the `Scalar`/`Sequence` split. `chunk_size`'s `int(size / chunks + 0.5)` is exact round-half-up.
- Lists.PartitionList: for a negative number of chunks the model returns `[x]` without computing `chunk_size`, since the loop never uses it then.
- `span` (nonstdlib/misc.py, tools.py), `weighted_choice` and `yield_flattened` / `flatten_list` / `is_iterable` are not modelled. They are floating point or numpy, random, or broken (an undefined `flatten`, `basestring`).
- `bin_list` / `yield_binned` are the same in nonstdlib/misc.py and tools.py and are modelled once (Lists.BinList, Lists.ZipViews). Both end in `itertools.izip`, which exists only in Python 2; the model gives it Python 2 `izip` semantics, stopping at the shortest view.
- The library is modelled as the Python 2 program it is. Test results are truthy through `__nonzero__` (testing.py:113), and the `print` statements of testing.py and arguments.py run only under Python 2. `Success` and `Failure` are modelled by the `success` flag of a result.
- `reset_defaults` in nonstdlib/meta.py is not modelled: it rewrites a function's default arguments through `deepcopy`.
- `memoize` is modelled for hashable arguments and a deterministic function. An unhashable argument tuple raising `TypeError`, and the copying of `__name__` and `__doc__`, are left out.
- Callables are data. Test, setup and teardown functions are records of a name, an argument count and whether they raise. `raises` means raising an `Exception`, which `Test.run` catches (testing.py:149); a `KeyboardInterrupt` or `SystemExit` escapes `Test.run` and `Suite.run`, and is not modelled. `singleton`'s class is a name plus the signature `inspect.getargspec` reports. The shared `Helper` object is not modelled.
- Meta.SingletonFactory.GetInstance: calling the class always succeeds in the model. A `cls()` that raises, which leaves the instance table empty (nonstdlib/meta.py:76-78), is not modelled.
- `Suite.stop_on_error` is stored but unused, as in the source. The trivial getters `is_finished`, `get_title`, `get_results`, `get_setup` and `get_teardown` read fields of `Suite` and have no members of their own.
- Approx: the expectations in tests/30_test_approx.py (`rel`/`abs` keywords, `ValueError`s, length mismatches comparing unequal) describe a different `approx`. The model follows nonstdlib/approx.py, and `Approx.LengthMismatchUndetected` records that a length mismatch goes unnoticed.
