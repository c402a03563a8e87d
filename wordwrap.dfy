/**
 * `wrap` from string.py: the input is cut into words at runs of spaces and
 * the words are laid out greedily, line by line, each line starting with
 * the indent.
 */
module WordWrap {
  import opened Seqs
  import opened Strings

  /**
   * `re.split('( )+', s)`: the text between runs of spaces, with each run
   * kept as the single space its group last captured. Read from the left,
   * a character other than a space extends the first word; a space that
   * another space follows joins that run; any other space opens a run
   * before an empty first word.
   */
  function SpaceSplit(s: string): (r: seq<string>)
    ensures |r| > 0
  {
    if |s| == 0 then [""]
    else
      var r := SpaceSplit(s[1..]);
      if s[0] != ' ' then [[s[0]] + r[0]] + r[1..]
      else if |s| > 1 && s[1] == ' ' then r
      else ["", " "] + r
  }

  /** `n` is even. */
  predicate Even(n: nat) {
    if n < 2 then n == 0 else Even(n - 2)
  }

  /**
   * Words alternate with single spaces, starting and ending with a
   * (possibly empty) word; a word that follows a space is not empty.
   */
  lemma {:induction false} SpaceSplitAlternates(s: string)
    ensures Even(|SpaceSplit(s)| - 1)
    ensures forall i :: 0 <= i < |SpaceSplit(s)| ==>
      if Even(i) then ' ' !in SpaceSplit(s)[i] else SpaceSplit(s)[i] == " "
    ensures |s| > 0 && s[0] == ' ' ==> |SpaceSplit(s)| > 1 && SpaceSplit(s)[0] == ""
  {
    if |s| > 0 {
      SpaceSplitAlternates(s[1..]);
      var r, rest := SpaceSplit(s), SpaceSplit(s[1..]);
      if s[0] != ' ' {
        forall i | 0 <= i < |r|
          ensures if Even(i) then ' ' !in r[i] else r[i] == " "
        {
          if i > 0 {
            assert r[i] == rest[i];
          }
        }
      } else if !(|s| > 1 && s[1] == ' ') {
        forall i | 2 <= i < |r|
          ensures if Even(i) then ' ' !in r[i] else r[i] == " "
        {
          assert r[i] == rest[i - 2] && Even(i) == Even(i - 2);
        }
      }
    }
  }

  /** A part in front of more parts, concatenated. */
  lemma ConcatFront(w: string, rest: seq<string>)
    ensures Concat([w] + rest) == w + Concat(rest)
  {
    ConcatAppend([w], rest);
    assert [w][..0] == [];
    assert Concat([w]) == [] + w == w;
  }

  /** Two parts in front of more parts, concatenated. */
  lemma ConcatFrontTwo(a: string, b: string, rest: seq<string>)
    ensures Concat([a, b] + rest) == a + b + Concat(rest)
  {
    ConcatFront(a, [b] + rest);
    ConcatFront(b, rest);
    assert [a] + ([b] + rest) == [a, b] + rest;
  }

  /** A character put in front of the first part is put in front of the concatenation. */
  lemma ConcatConsFirst(c: char, w: string, more: seq<string>)
    ensures Concat([[c] + w] + more) == [c] + Concat([w] + more)
  {
    ConcatFront(w, more);
    ConcatFront([c] + w, more);
  }

  /** A character other than a space extends the first word. */
  lemma SpaceSplitConcatWord(s: string)
    requires |s| > 0 && s[0] != ' '
    ensures Concat(SpaceSplit(s)) == [s[0]] + Concat(SpaceSplit(s[1..]))
  {
    var rest := SpaceSplit(s[1..]);
    assert rest == [rest[0]] + rest[1..];
    ConcatConsFirst(s[0], rest[0], rest[1..]);
  }

  /** A space that opens a run puts one space in front. */
  lemma SpaceSplitConcatGap(s: string)
    requires |s| > 0 && s[0] == ' ' && !(|s| > 1 && s[1] == ' ')
    ensures Concat(SpaceSplit(s)) == [' '] + Concat(SpaceSplit(s[1..]))
  {
    var rest := SpaceSplit(s[1..]);
    ConcatFrontTwo([], [' '], rest);
    assert [] + [' '] == [' '];
  }

  /** Concatenating the words and spaces drops only spaces. */
  lemma {:induction false} SpaceSplitKeepsNonWhitespace(s: string)
    ensures NonWhitespace(Bytes, Concat(SpaceSplit(s))) == NonWhitespace(Bytes, s)
  {
    if |s| > 0 {
      var t := s[1..];
      SpaceSplitKeepsNonWhitespace(t);
      if s[0] != ' ' {
        SpaceSplitConcatWord(s);
      } else if !(|s| > 1 && s[1] == ' ') {
        SpaceSplitConcatGap(s);
      }
      assert s == [s[0]] + t;
      NonWhitespaceAppend(Bytes, [s[0]], t);
      NonWhitespaceAppend(Bytes, [s[0]], Concat(SpaceSplit(t)));
    }
  }

  /** No two spaces in a row. */
  predicate SingleSpaced(s: string) {
    forall i :: 0 <= i < |s| - 1 ==> !(s[i] == ' ' && s[i + 1] == ' ')
  }

  /** With single spacing, concatenating the words and spaces gives back the text itself. */
  lemma {:induction false} SpaceSplitJoin(s: string)
    requires SingleSpaced(s)
    ensures Concat(SpaceSplit(s)) == s
  {
    if |s| > 0 {
      var t := s[1..];
      assert SingleSpaced(t) by {
        forall i | 0 <= i < |t| - 1
          ensures !(t[i] == ' ' && t[i + 1] == ' ')
        {
          assert t[i] == s[i + 1] && t[i + 1] == s[i + 2];
        }
      }
      SpaceSplitJoin(t);
      if s[0] != ' ' {
        SpaceSplitConcatWord(s);
      } else {
        assert !(|s| > 1 && s[1] == ' ');
        SpaceSplitConcatGap(s);
      }
      assert s == [s[0]] + t;
    }
  }

  /** `n * ' '`: no spaces for a count of zero or less. */
  function Spaces(n: int): (r: string)
    ensures |r| == Max(0, n)
    ensures forall i :: 0 <= i < |r| ==> r[i] == ' '
  {
    seq(Max(0, n), _ => ' ')
  }

  /** The state of the loop of `wrap`: the lines emitted so far and the current line. */
  datatype Layout = Layout(lines: seq<string>, line: string)

  /**
   * The layout after the given words: a word joins the current line when
   * `len(line) + len(word) + 1 < columns`; otherwise the line is emitted
   * and a new one starts with the indent and the stripped word.
   */
  function Fill(words: seq<string>, indent: string, columns: int): Layout {
    if |words| == 0 then Layout([], indent)
    else
      var st := Fill(words[..|words| - 1], indent, columns);
      var word := Last(words);
      if |st.line| + |word| + 1 < columns then Layout(st.lines, st.line + word)
      else Layout(st.lines + [st.line], indent + Strip(Bytes, word))
  }

  /** Every line of a layout, the current one last. */
  function AllLines(st: Layout): seq<string> {
    st.lines + [st.line]
  }

  /** The lines `wrap` joins, for the pieces of text it is given. */
  function WrappedLines(pieces: seq<string>, indent: int, columns: int): seq<string> {
    AllLines(Fill(SpaceSplit(Concat(pieces)), Spaces(indent), columns))
  }

  /** `wrap(*pieces, indent=indent, columns=columns)`. */
  function Wrapped(pieces: seq<string>, indent: int, columns: int): string {
    Join(WrappedLines(pieces, indent, columns), "\n")
  }

  /** The loop of `wrap`, proved to compute `Wrapped`. */
  method Wrap(pieces: seq<string>, indent: int := 0, columns: int := 79) returns (r: string)
    ensures r == Wrapped(pieces, indent, columns)
  {
    var pad := Spaces(indent);
    var input := Concat(pieces);
    var words := SpaceSplit(input);
    var line := pad;
    var lines: seq<string> := [];
    for i := 0 to |words|
      invariant Layout(lines, line) == Fill(words[..i], pad, columns)
    {
      var word := words[i];
      assert words[..i + 1][..i] == words[..i];
      if |line| + |word| + 1 < columns {
        line := line + word;
      } else {
        lines := lines + [line];
        line := pad + Strip(Bytes, word);
      }
    }
    assert words[..|words|] == words;
    lines := lines + [line];
    r := Join(lines, "\n");
  }

  /** Every line, emitted or current, starts with the indent. */
  lemma {:induction false} FillIndents(words: seq<string>, indent: string, columns: int)
    ensures forall i :: 0 <= i < |AllLines(Fill(words, indent, columns))| ==>
      indent <= AllLines(Fill(words, indent, columns))[i]
  {
    if |words| > 0 {
      var init := words[..|words| - 1];
      FillIndents(init, indent, columns);
      var prev := AllLines(Fill(init, indent, columns));
      var now := AllLines(Fill(words, indent, columns));
      forall i | 0 <= i < |now|
        ensures indent <= now[i]
      {
        if i < |prev| && now[i] == prev[i] {
        } else if i == |now| - 1 && |now| != |prev| {
          assert now[i] == indent + Strip(Bytes, words[|words| - 1]);
        } else {
          var word := words[|words| - 1];
          assert now[i] == prev[i] + word;
          assert indent <= prev[i];
          assert (prev[i] + word)[..|indent|] == prev[i][..|indent|];
        }
      }
    }
  }

  /**
   * A line that fits: at most `columns - 2` long, or else the bare indent
   * or the indent followed by one stripped word.
   */
  predicate LineFits(line: string, indent: string, columns: int, words: seq<string>) {
    |line| <= columns - 2 || line == indent ||
    exists j :: 0 <= j < |words| && line == indent + Strip(Bytes, words[j])
  }

  /**
   * A line grown by adding words is at most `columns - 2` long; a longer
   * line is the bare indent or the indent followed by one stripped word.
   */
  lemma {:induction false} FillLineLengths(words: seq<string>, indent: string, columns: int)
    ensures forall i :: 0 <= i < |AllLines(Fill(words, indent, columns))| ==>
      LineFits(AllLines(Fill(words, indent, columns))[i], indent, columns, words)
  {
    if |words| > 0 {
      var init := words[..|words| - 1];
      FillLineLengths(init, indent, columns);
      var prev := AllLines(Fill(init, indent, columns));
      var now := AllLines(Fill(words, indent, columns));
      forall i | 0 <= i < |now|
        ensures LineFits(now[i], indent, columns, words)
      {
        if i < |prev| && now[i] == prev[i] {
          assert LineFits(prev[i], indent, columns, init);
          if !(|now[i]| <= columns - 2 || now[i] == indent) {
            var j :| 0 <= j < |init| && prev[i] == indent + Strip(Bytes, init[j]);
            assert words[j] == init[j];
          }
        } else if i == |now| - 1 && |now| != |prev| {
          assert now[i] == indent + Strip(Bytes, words[|words| - 1]);
        }
      }
    }
  }

  /** Joining one more line onto the current one adds the word at the end of the text. */
  lemma JoinGrowLast(lines: seq<string>, line: string, word: string, sep: string)
    ensures Join(lines + [line + word], sep) == Join(lines + [line], sep) + word
  {
    if |lines| > 0 {
      JoinSnoc(lines, line + word, sep);
      JoinSnoc(lines, line, sep);
    } else {
      assert lines + [line + word] == [line + word];
      assert lines + [line] == [line];
    }
  }

  lemma NonWhitespaceOfThree(a: string, b: string, c: string)
    ensures NonWhitespace(Bytes, a + b + c) == NonWhitespace(Bytes, a) + NonWhitespace(Bytes, b) + NonWhitespace(Bytes, c)
  {
    NonWhitespaceAppend(Bytes, a + b, c);
    NonWhitespaceAppend(Bytes, a, b);
  }

  /** Adding a word to the current line adds it at the end of the text. */
  lemma FillGrowKeeps(st: Layout, word: string, sep: string)
    ensures NonWhitespace(Bytes, Join(AllLines(Layout(st.lines, st.line + word)), sep))
         == NonWhitespace(Bytes, Join(AllLines(st), sep)) + NonWhitespace(Bytes, word)
  {
    JoinGrowLast(st.lines, st.line, word, sep);
    NonWhitespaceAppend(Bytes, Join(AllLines(st), sep), word);
  }

  /** Breaking the line before a word adds the separator, the indent and the stripped word. */
  lemma FillBreakKeeps(st: Layout, word: string, indent: string, sep: string)
    requires NonWhitespace(Bytes, indent) == "" && NonWhitespace(Bytes, sep) == ""
    ensures NonWhitespace(Bytes, Join(AllLines(Layout(st.lines + [st.line], indent + Strip(Bytes, word))), sep))
         == NonWhitespace(Bytes, Join(AllLines(st), sep)) + NonWhitespace(Bytes, word)
  {
    var next := indent + Strip(Bytes, word);
    JoinSnoc(AllLines(st), next, sep);
    assert AllLines(st) + [next] == AllLines(Layout(st.lines + [st.line], next));
    NonWhitespaceOfThree(Join(AllLines(st), sep), sep, next);
    NonWhitespaceAppend(Bytes, indent, Strip(Bytes, word));
    StripKeepsNonWhitespace(Bytes, word);
  }

  /**
   * Laying words out keeps every non-whitespace character of the words,
   * in order: the indent, the line separator and the stripping only drop
   * whitespace.
   */
  lemma {:induction false} FillKeepsNonWhitespace(words: seq<string>, indent: string, columns: int, sep: string)
    requires NonWhitespace(Bytes, indent) == "" && NonWhitespace(Bytes, sep) == ""
    ensures NonWhitespace(Bytes, Join(AllLines(Fill(words, indent, columns)), sep)) == NonWhitespace(Bytes, Concat(words))
  {
    if |words| > 0 {
      var init := words[..|words| - 1];
      var word := words[|words| - 1];
      FillKeepsNonWhitespace(init, indent, columns, sep);
      NonWhitespaceAppend(Bytes, Concat(init), word);
      var st := Fill(init, indent, columns);
      if |st.line| + |word| + 1 < columns {
        FillGrowKeeps(st, word, sep);
      } else {
        FillBreakKeeps(st, word, indent, sep);
      }
    }
  }

  /**
   * Every line of `wrap` starts with `indent` spaces, and is at most
   * `columns - 2` long unless it holds the indent and at most one word.
   */
  lemma WrapLineShape(pieces: seq<string>, indent: int, columns: int)
    ensures var lines := WrappedLines(pieces, indent, columns);
      var words := SpaceSplit(Concat(pieces));
      forall i :: 0 <= i < |lines| ==>
        Spaces(indent) <= lines[i] && LineFits(lines[i], Spaces(indent), columns, words)
  {
    var words, pad := SpaceSplit(Concat(pieces)), Spaces(indent);
    var lines := WrappedLines(pieces, indent, columns);
    assert lines == AllLines(Fill(words, pad, columns));
    FillIndents(words, pad, columns);
    FillLineLengths(words, pad, columns);
    forall i | 0 <= i < |lines|
      ensures pad <= lines[i] && LineFits(lines[i], pad, columns, words)
    {
      assert lines[i] == AllLines(Fill(words, pad, columns))[i];
    }
  }

  /** `wrap` keeps the non-whitespace characters of its input, in order. */
  lemma WrapKeepsNonWhitespace(pieces: seq<string>, indent: int, columns: int)
    ensures NonWhitespace(Bytes, Wrapped(pieces, indent, columns)) == NonWhitespace(Bytes, Concat(pieces))
  {
    var pad := Spaces(indent);
    NonWhitespaceOfBlank(Bytes, pad);
    NonWhitespaceOfBlank(Bytes, "\n");
    FillKeepsNonWhitespace(SpaceSplit(Concat(pieces)), pad, columns, "\n");
    SpaceSplitKeepsNonWhitespace(Concat(pieces));
  }

  /**
   * Empty input gives the indent alone when it fits; otherwise the indent
   * is emitted twice, on two lines.
   */
  lemma WrapEmpty(indent: int, columns: int)
    ensures var pad := Spaces(indent);
      Wrapped([], indent, columns) == if |pad| + 1 < columns then pad else pad + "\n" + pad
  {
    var pad := Spaces(indent);
    assert SpaceSplit(Concat([])) == [[]];
    FillOneEmptyWord(pad, columns);
    assert Join([pad, pad], "\n") == pad + "\n" + pad by {
      assert [pad, pad][1..] == [pad];
    }
  }

  /** The layout of the single empty word that empty input splits into. */
  lemma FillOneEmptyWord(pad: string, columns: int)
    ensures AllLines(Fill([[]], pad, columns)) == if |pad| + 1 < columns then [pad] else [pad, pad]
  {
    var words: seq<string> := [[]];
    assert words[..0] == [];
    assert Fill(words[..0], pad, columns) == Layout([], pad);
    assert Strip(Bytes, []) == [] && pad + [] == pad;
  }
}
