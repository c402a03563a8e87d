/**
 * The command-line reader of arguments.py: each argument after the program
 * name is sorted into flags (`-word`), options (`--name` or `--name=value`)
 * or positional arguments, and query functions read the result.
 */
module Arguments {
  import opened Wrappers
  import opened Strings

  predicate NotWhitespace(c: char) {
    !IsWhitespace(Bytes, c)
  }

  /** `-(\w+)` matched at the start of `arg`: the word after the dash. */
  function FlagMatch(arg: string): (r: Option<string>)
    ensures r.Some? <==> |arg| >= 2 && arg[0] == '-' && IsWordChar(arg[1])
    ensures r.Some? ==> 0 < |r.value| < |arg| && r.value == arg[1..1 + |r.value|]
    ensures r.Some? ==> forall j :: 0 <= j < |r.value| ==> IsWordChar(r.value[j])
    ensures r.Some? && 1 + |r.value| < |arg| ==> !IsWordChar(arg[1 + |r.value|])
  {
    if |arg| >= 2 && arg[0] == '-' && IsWordChar(arg[1]) then
      Some(arg[1..1 + RunLength(arg[1..], IsWordChar)])
    else None
  }

  /** An option read off the command line: its name and its value, if any. */
  datatype OptionArg = OptionArg(name: string, value: Option<string>)

  /** `(?:=(\S+))?` after an option name: the run of non-whitespace after `=`, if any. */
  function OptionValueMatch(rest: string): (r: Option<string>)
    ensures r.Some? <==> |rest| >= 2 && rest[0] == '=' && !IsWhitespace(Bytes, rest[1])
    ensures r.Some? ==> 0 < |r.value| < |rest| && r.value == rest[1..1 + |r.value|]
    ensures r.Some? ==> forall j :: 0 <= j < |r.value| ==> !IsWhitespace(Bytes, r.value[j])
    ensures r.Some? && 1 + |r.value| < |rest| ==> IsWhitespace(Bytes, rest[1 + |r.value|])
  {
    if |rest| >= 2 && rest[0] == '=' && !IsWhitespace(Bytes, rest[1]) then
      Some(rest[1..1 + RunLength(rest[1..], NotWhitespace)])
    else None
  }

  /** `--(\w+)(?:=(\S+))?` matched at the start of `arg`. */
  function OptionMatch(arg: string): (r: Option<OptionArg>)
    ensures r.Some? <==> |arg| >= 3 && arg[0] == '-' && arg[1] == '-' && IsWordChar(arg[2])
    ensures r.Some? ==> 0 < |r.value.name| && 2 + |r.value.name| <= |arg| && r.value.name == arg[2..2 + |r.value.name|]
    ensures r.Some? ==> forall j :: 0 <= j < |r.value.name| ==> IsWordChar(r.value.name[j])
    ensures r.Some? && 2 + |r.value.name| < |arg| ==> !IsWordChar(arg[2 + |r.value.name|])
    ensures r.Some? ==> r.value.value == OptionValueMatch(arg[2 + |r.value.name|..])
  {
    if |arg| >= 3 && arg[0] == '-' && arg[1] == '-' && IsWordChar(arg[2]) then
      var k := RunLength(arg[2..], IsWordChar);
      Some(OptionArg(arg[2..2 + k], OptionValueMatch(arg[2 + k..])))
    else None
  }

  /** How the loop of arguments.py files one argument. */
  datatype Kind = Flag(word: string) | Opt(option: OptionArg) | Positional

  /** The flag pattern is tried first, then the option pattern; anything else is positional. */
  function KindOf(arg: string): (k: Kind)
    ensures k.Flag? <==> FlagMatch(arg).Some?
    ensures k.Opt? <==> FlagMatch(arg).None? && OptionMatch(arg).Some?
  {
    match (FlagMatch(arg), OptionMatch(arg))
    case (Some(word), _) => Flag(word)
    case (None, Some(o)) => Opt(o)
    case (None, None) => Positional
  }

  /** The three collections the loop of arguments.py fills. */
  datatype Parsed = Parsed(flags: seq<string>, options: map<string, Option<string>>, positional: seq<string>)

  /** `p` after filing one more argument; a repeated option keeps its last value. */
  function File(p: Parsed, arg: string): Parsed {
    match KindOf(arg)
    case Flag(word) => p.(flags := p.flags + [word])
    case Opt(o) => p.(options := p.options[o.name := o.value])
    case Positional => p.(positional := p.positional + [arg])
  }

  /** The arguments filed in order. */
  function Classify(args: seq<string>): Parsed {
    if |args| == 0 then Parsed([], map[], [])
    else File(Classify(args[..|args| - 1]), args[|args| - 1])
  }

  /** An argument that the flag pattern matches with the given word. */
  predicate NamesFlag(arg: string, name: string) {
    KindOf(arg).Flag? && KindOf(arg).word == name
  }

  /** An argument that the option pattern, and not the flag pattern, matches with the given name. */
  predicate NamesOption(arg: string, name: string) {
    KindOf(arg).Opt? && KindOf(arg).option.name == name
  }

  /** The positional arguments: those neither pattern matches, in order. */
  function Positionals(args: seq<string>): seq<string> {
    if |args| == 0 then []
    else
      var rest := Positionals(args[1..]);
      if KindOf(args[0]).Positional? then [args[0]] + rest else rest
  }

  /**
   * The state arguments.py builds at import time from `sys.argv`, here
   * the `argv` given to the constructor.
   */
  class CommandLine {
    var flags: seq<string>
    var options: map<string, Option<string>>
    var positional: seq<string>
    /** The arguments after the program name, kept for the proofs. */
    ghost var arguments: seq<string>

    /** The three collections are the arguments filed in order. */
    ghost predicate Valid()
      reads this
    {
      Parsed(flags, options, positional) == Classify(arguments)
    }

    /**
     * Drops the program name, then sorts each remaining argument. An
     * empty `argv` would make the `pop(0)` fail; `sys.argv` always holds
     * the program name.
     */
    constructor(argv: seq<string>)
      requires |argv| > 0
      ensures Parsed(flags, options, positional) == Classify(argv[1..])
      ensures arguments == argv[1..] && Valid()
    {
      var arguments := argv[1..];
      var fs: seq<string>, os: map<string, Option<string>>, ps: seq<string> := [], map[], [];
      for i := 0 to |arguments|
        invariant Parsed(fs, os, ps) == Classify(arguments[..i])
      {
        var argument := arguments[i];
        assert arguments[..i + 1][..i] == arguments[..i];
        var flagMatch := FlagMatch(argument);
        var optionMatch := OptionMatch(argument);
        if flagMatch.Some? {
          fs := fs + [flagMatch.value];
        } else if optionMatch.Some? {
          os := os[optionMatch.value.name := optionMatch.value.value];
        } else {
          ps := ps + [argument];
        }
      }
      assert arguments[..|arguments|] == arguments;
      flags, options, positional := fs, os, ps;
      this.arguments := arguments;
    }

    /**
     * `index(i)`: the positional argument at `i`, counted from the end
     * when `i` is negative as Python lists do, or None out of range.
     */
    function Index(i: int): (r: Option<string>)
      reads this
      ensures r.Some? <==> -|positional| <= i < |positional|
      ensures 0 <= i < |positional| ==> r == Some(positional[i])
      ensures -|positional| <= i < 0 ==> r == Some(positional[|positional| + i])
    {
      if 0 <= i < |positional| then Some(positional[i])
      else if -|positional| <= i < 0 then Some(positional[|positional| + i])
      else None
    }

    function First(): (r: Option<string>)
      reads this
      ensures r == Index(0)
      ensures r.Some? <==> |positional| >= 1
    {
      Index(0)
    }

    function Second(): (r: Option<string>)
      reads this
      ensures r == Index(1)
      ensures r.Some? <==> |positional| >= 2
    {
      Index(1)
    }

    function Third(): (r: Option<string>)
      reads this
      ensures r == Index(2)
      ensures r.Some? <==> |positional| >= 3
    {
      Index(2)
    }

    function Count(): (n: nat)
      reads this
      ensures n == |positional|
    {
      |positional|
    }

    /** `empty()` holds exactly when there are no positional arguments. */
    predicate Empty()
      reads this
      ensures Empty() <==> Count() == 0
      ensures Empty() <==> First().None?
    {
      |positional| == 0
    }

    /** `has_flag(name)`: some argument is the flag `-name`. */
    predicate HasFlag(name: string)
      reads this
      ensures Valid() ==> (HasFlag(name) <==> exists i :: 0 <= i < |arguments| && NamesFlag(arguments[i], name))
    {
      FlagsPresent(arguments, name);
      name in flags
    }

    /** `has_option(name)`: some argument is the option `--name`, with or without a value. */
    predicate HasOption(name: string)
      reads this
      ensures Valid() ==> (HasOption(name) <==> exists i :: 0 <= i < |arguments| && NamesOption(arguments[i], name))
    {
      OptionsPresent(arguments, name);
      name in options
    }

    /** `flag(name, yes, no)`: `yes` exactly when `name` was given as a flag. */
    function Flag<T>(name: string, yes: T, no: T): (r: T)
      reads this
      ensures name in flags ==> r == yes
      ensures name !in flags ==> r == no
    {
      if HasFlag(name) then yes else no
    }

    /**
     * `option(name, default, values, cast)`: the stored value (None for an
     * option given without one) or else the default, which is `values[0]`
     * when `values` is given; then cast, and checked against `values`.
     */
    function GetOption(name: string, default: Value, values: Option<seq<Value>>, cast: Value -> Value): (r: Result<Value>)
      reads this
      ensures values.Some? && |values.value| == 0 ==> r == Err(IndexError)
      ensures r.Ok? && name in options ==> r.value == cast(Stored(options[name]))
      ensures r.Ok? && name !in options && values.None? ==> r.value == cast(default)
      ensures r.Ok? && name !in options && values.Some? ==> r.value == cast(values.value[0])
      ensures r.Ok? && values.Some? ==> r.value in values.value
      ensures values.None? ==> r.Ok?
      ensures values.Some? && |values.value| > 0 ==>
        (r.Ok? <==> cast(if name in options then Stored(options[name]) else values.value[0]) in values.value)
      ensures r.Err? && values.Some? && |values.value| > 0 ==> r.error == AssertionError
    {
      if values.Some? && |values.value| == 0 then Err(IndexError)
      else
        var dflt := if values.Some? then values.value[0] else default;
        var option := if name in options then Stored(options[name]) else dflt;
        var value := cast(option);
        if values.Some? && value !in values.value then Err(AssertionError) else Ok(value)
    }

    /** `has_any(*names)`: stops at the first name given as a flag or an option. */
    method HasAny(names: seq<string>) returns (r: bool)
      ensures r <==> exists i :: 0 <= i < |names| && (HasFlag(names[i]) || HasOption(names[i]))
    {
      for i := 0 to |names|
        invariant forall j :: 0 <= j < i ==> !HasFlag(names[j]) && !HasOption(names[j])
      {
        if HasFlag(names[i]) {
          return true;
        }
        if HasOption(names[i]) {
          return true;
        }
      }
      return false;
    }

    /** `has_all(*names)`: stops at the first name given neither as a flag nor as an option. */
    method HasAll(names: seq<string>) returns (r: bool)
      ensures r <==> forall i :: 0 <= i < |names| ==> HasFlag(names[i]) || HasOption(names[i])
    {
      for i := 0 to |names|
        invariant forall j :: 0 <= j < i ==> HasFlag(names[j]) || HasOption(names[j])
      {
        if HasFlag(names[i]) {
          continue;
        }
        if HasOption(names[i]) {
          continue;
        }
        return false;
      }
      return true;
    }
  }

  /** A Python value that `option` can return: None, a string, or a number after a cast. */
  datatype Value = PyNone | Str(s: string) | Int(i: int)

  /** A value stored in the options table: None or the text after `=`. */
  function Stored(v: Option<string>): Value {
    match v
    case None => PyNone
    case Some(s) => Str(s)
  }

  /** `lambda x: x`, the default cast. */
  function Identity(v: Value): Value {
    v
  }

  /** The flag words, in the order their arguments appear. */
  function FlagWords(args: seq<string>): seq<string> {
    if |args| == 0 then []
    else
      var rest := FlagWords(args[1..]);
      if KindOf(args[0]).Flag? then [KindOf(args[0]).word] + rest else rest
  }

  /** The flags are the words of the flag arguments, in command-line order. */
  lemma {:induction false} FlagsInOrder(args: seq<string>)
    ensures Classify(args).flags == FlagWords(args)
  {
    if |args| > 0 {
      var init := args[..|args| - 1];
      FlagsInOrder(init);
      FlagWordsSnoc(init, args[|args| - 1]);
      assert init + [args[|args| - 1]] == args;
    }
  }

  lemma {:induction false} FlagWordsSnoc(args: seq<string>, arg: string)
    ensures FlagWords(args + [arg]) == FlagWords(args) + (if KindOf(arg).Flag? then [KindOf(arg).word] else [])
  {
    if |args| > 0 {
      assert (args + [arg])[1..] == args[1..] + [arg];
      FlagWordsSnoc(args[1..], arg);
    } else {
      assert [arg][1..] == [];
    }
  }

  /** A flag word is present exactly when some argument is that flag. */
  lemma FlagsPresent(args: seq<string>, name: string)
    ensures name in Classify(args).flags <==> exists i :: 0 <= i < |args| && NamesFlag(args[i], name)
  {
    FlagsInOrder(args);
    FlagWordsHas(args, name);
  }

  lemma {:induction false} FlagWordsHas(args: seq<string>, name: string)
    ensures name in FlagWords(args) <==> exists i :: 0 <= i < |args| && NamesFlag(args[i], name)
  {
    if |args| > 0 {
      FlagWordsHas(args[1..], name);
      if exists i :: 0 <= i < |args| && NamesFlag(args[i], name) {
        var i :| 0 <= i < |args| && NamesFlag(args[i], name);
        if i > 0 {
          assert args[1..][i - 1] == args[i];
        }
      }
      if exists i :: 0 <= i < |args[1..]| && NamesFlag(args[1..][i], name) {
        var i :| 0 <= i < |args[1..]| && NamesFlag(args[1..][i], name);
        assert args[i + 1] == args[1..][i];
      }
    }
  }

  /** The positional arguments keep their command-line order. */
  lemma {:induction false} PositionalInOrder(args: seq<string>)
    ensures Classify(args).positional == Positionals(args)
  {
    if |args| > 0 {
      var init := args[..|args| - 1];
      PositionalInOrder(init);
      PositionalsSnoc(init, args[|args| - 1]);
      assert init + [args[|args| - 1]] == args;
    }
  }

  lemma {:induction false} PositionalsSnoc(args: seq<string>, arg: string)
    ensures Positionals(args + [arg]) == Positionals(args) + (if KindOf(arg).Positional? then [arg] else [])
  {
    if |args| > 0 {
      assert (args + [arg])[1..] == args[1..] + [arg];
      PositionalsSnoc(args[1..], arg);
    } else {
      assert [arg][1..] == [];
    }
  }

  /**
   * Every argument is filed exactly once: the flags, the positional
   * arguments and the option arguments together number the arguments.
   */
  lemma {:induction false} EachArgumentFiledOnce(args: seq<string>)
    ensures |Classify(args).flags| + |Classify(args).positional| + OptionArgCount(args) == |args|
  {
    if |args| > 0 {
      EachArgumentFiledOnce(args[..|args| - 1]);
    }
  }

  /** The number of arguments the option pattern files. */
  function OptionArgCount(args: seq<string>): nat {
    if |args| == 0 then 0
    else OptionArgCount(args[..|args| - 1]) + (if KindOf(args[|args| - 1]).Opt? then 1 else 0)
  }

  /** An option name is present exactly when some argument names it. */
  lemma {:induction false} OptionsPresent(args: seq<string>, name: string)
    ensures name in Classify(args).options <==> exists i :: 0 <= i < |args| && NamesOption(args[i], name)
  {
    if |args| > 0 {
      var init := args[..|args| - 1];
      OptionsPresent(init, name);
      FileOption(Classify(init), args[|args| - 1], name);
      SomeNamingSnoc(init, args[|args| - 1], name);
      assert init + [args[|args| - 1]] == args;
    }
  }

  lemma FileOption(p: Parsed, arg: string, name: string)
    ensures name in File(p, arg).options <==> name in p.options || NamesOption(arg, name)
  {
  }

  lemma SomeNamingSnoc(args: seq<string>, arg: string, name: string)
    ensures (exists i :: 0 <= i < |args + [arg]| && NamesOption((args + [arg])[i], name))
        <==> (exists i :: 0 <= i < |args| && NamesOption(args[i], name)) || NamesOption(arg, name)
  {
    if exists i :: 0 <= i < |args| && NamesOption(args[i], name) {
      var i :| 0 <= i < |args| && NamesOption(args[i], name);
      assert (args + [arg])[i] == args[i];
    }
    if NamesOption(arg, name) {
      assert (args + [arg])[|args|] == arg;
    }
  }

  /** `args[i]` is the last argument naming the option. */
  predicate LastNaming(args: seq<string>, name: string, i: int) {
    0 <= i < |args| && NamesOption(args[i], name) &&
    forall j :: i < j < |args| ==> !NamesOption(args[j], name)
  }

  /** A repeated option holds the value of the last argument that names it. */
  lemma {:induction false} OptionsLastWins(args: seq<string>, name: string, i: int)
    requires LastNaming(args, name, i)
    ensures name in Classify(args).options
    ensures Classify(args).options[name] == KindOf(args[i]).option.value
  {
    var init := args[..|args| - 1];
    if i < |args| - 1 {
      assert !NamesOption(args[|args| - 1], name);
      assert LastNaming(init, name, i) by {
        assert init[i] == args[i];
        forall j | i < j < |init| ensures !NamesOption(init[j], name) {
          assert init[j] == args[j];
        }
      }
      OptionsLastWins(init, name, i);
    }
  }

  /** `--name` never matches the flag pattern: the second dash is not a word character. */
  lemma DoubleDashIsNoFlag(arg: string)
    requires |arg| >= 2 && arg[0] == '-' && arg[1] == '-'
    ensures FlagMatch(arg).None?
  {
  }

  /**
   * A value holding none of the six ASCII spaces is taken whole after `=`,
   * including the separators U+001C to U+001F that `\S` matches when the
   * pattern is compiled without `re.UNICODE`.
   */
  lemma OptionValueWhole(v: string)
    requires |v| > 0 && forall j :: 0 <= j < |v| ==> NotWhitespace(v[j])
    ensures OptionValueMatch("=" + v) == Some(v)
  {
    var rest := "=" + v;
    assert rest[0] == '=' && rest[1] == v[0] && rest[1..] == v;
    RunLengthUnique(v, NotWhitespace, |v|);
    assert rest[1..1 + |v|] == v;
  }

  /** `--a=\x1cb` and `--a=x\x1fy` keep their whole values. */
  lemma SeparatorsInOptionValues()
    ensures OptionMatch("--a=\U{001C}b") == Some(OptionArg("a", Some("\U{001C}b")))
    ensures OptionMatch("--a=x\U{001F}y") == Some(OptionArg("a", Some("x\U{001F}y")))
  {
    OptionNamedA("\U{001C}b");
    assert "--a=" + "\U{001C}b" == "--a=\U{001C}b";
    OptionNamedA("x\U{001F}y");
    assert "--a=" + "x\U{001F}y" == "--a=x\U{001F}y";
  }

  /** `--a=` followed by a value without ASCII spaces. */
  lemma OptionNamedA(v: string)
    requires |v| > 0 && forall j :: 0 <= j < |v| ==> NotWhitespace(v[j])
    ensures OptionMatch("--a=" + v) == Some(OptionArg("a", Some(v)))
  {
    var arg := "--a=" + v;
    assert arg[2..] == "a" + ("=" + v) && arg[3..] == "=" + v && arg[2..3] == "a";
    RunLengthUnique(arg[2..], IsWordChar, 1);
    OptionValueWhole(v);
  }

  /** `-` and `--` alone are positional arguments. */
  lemma DashesArePositional()
    ensures FlagMatch("-").None? && OptionMatch("-").None?
    ensures FlagMatch("--").None? && OptionMatch("--").None?
  {
  }

  /**
   * `option` with the identity cast: an option given without a value is
   * None, not the default, and an absent one is the default.
   */
  lemma OptionWithoutValue(c: CommandLine, name: string, default: Value)
    ensures name in c.options && c.options[name].None? ==>
      c.GetOption(name, default, None, Identity) == Ok(PyNone)
    ensures name !in c.options ==> c.GetOption(name, default, None, Identity) == Ok(default)
  {
  }
}
