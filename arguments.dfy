/** `parse_argv` (index.js:253-277): the command line, after the interpreter
    and script paths, is read left to right; `-i`, `-o` and `-l` each take the
    argument after them as their value, and anything else is an error. The
    streams `-i` and `-o` open are modelled by their paths (`None` stands for
    standard input and output), and the limit by what `parseInt` gives. */
module Arguments {
  import opened Wrappers

  /** The output limit. `Unlimited` is the default (`Infinity`); `AtMost(n)`
      is `parseInt` of a decimal digit string; `NotANumber` is `parseInt` of
      a missing argument; any other text is kept as `Unparsed`, since this
      model does not follow `parseInt` further. */
  datatype Limit = Unlimited | AtMost(n: nat) | NotANumber | Unparsed(raw: string)

  datatype Options = Options(input: Option<string>, output: Option<string>, limit: Limit)

  /** `MissingPath(flag)`: `-i` or `-o` as the last argument, so the stream is
      opened on an undefined path, which throws. `Unrecognized(arg)`: the error
      thrown for any other argument. */
  datatype ArgError = MissingPath(flag: string) | Unrecognized(arg: string)

  /** Standard input, standard output, no limit. */
  const Defaults: Options := Options(None, None, Unlimited)

  predicate IsFlag(a: string)
  {
    a == "-i" || a == "-o" || a == "-l"
  }

  predicate IsDigit(c: char)
  {
    '0' <= c <= '9'
  }

  predicate IsDigits(s: string)
  {
    |s| >= 1 && forall k :: 0 <= k < |s| ==> IsDigit(s[k])
  }

  /** The number a string of decimal digits denotes. */
  function DigitsValue(s: string): nat
    requires forall k :: 0 <= k < |s| ==> IsDigit(s[k])
  {
    if s == [] then 0
    else
      var d := s[|s| - 1] as int - '0' as int;
      assert IsDigit(s[|s| - 1]);
      assert 0 <= d;
      DigitsValue(s[..|s| - 1]) * 10 + d
  }

  /** `n` written in decimal, without leading zeros. */
  function Decimal(n: nat): (r: string)
    ensures IsDigits(r)
  {
    if n < 10 then [('0' as int + n) as char]
    else Decimal(n / 10) + [('0' as int + n % 10) as char]
  }

  lemma {:induction false} DecimalValue(n: nat)
    ensures DigitsValue(Decimal(n)) == n
  {
    if n >= 10 {
      DecimalValue(n / 10);
      var d := Decimal(n);
      assert d[..|d| - 1] == Decimal(n / 10);
    }
  }

  /** `parseInt(argv[i + 1])`, where the argument may be missing. */
  function ParseLimit(value: Option<string>): (r: Limit)
    ensures value.None? <==> r == NotANumber
    ensures r.AtMost? <==> value.Some? && IsDigits(value.value)
    ensures r.Unparsed? ==> r.raw == value.value
  {
    match value
    case None => NotANumber
    case Some(s) => if IsDigits(s) then AtMost(DigitsValue(s)) else Unparsed(s)
  }

  /** `-l` with a number written in decimal sets exactly that limit. */
  lemma ParseLimitDecimal(n: nat)
    ensures ParseLimit(Some(Decimal(n))) == AtMost(n)
  {
    DecimalValue(n);
  }

  /** The effect of one flag and its value on the options: the flag's own
      option takes the value, the other two are left as they were. */
  function Setting(o: Options, flag: string, value: Option<string>): (r: Options)
    requires IsFlag(flag)
    ensures r.input == (if flag == "-i" then value else o.input)
    ensures r.output == (if flag == "-o" then value else o.output)
    ensures r.limit == (if flag == "-l" then ParseLimit(value) else o.limit)
  {
    if flag == "-i" then o.(input := value)
    else if flag == "-o" then o.(output := value)
    else o.(limit := ParseLimit(value))
  }

  /** The arguments after the interpreter and the script. */
  function UserArgs(argv: seq<string>): seq<string>
  {
    if |argv| > 2 then argv[2..] else []
  }

  /** The arguments from the loop index `i` on. */
  function ArgsFrom(argv: seq<string>, i: nat): seq<string>
  {
    if i < |argv| then argv[i..] else []
  }

  /** The loop as a recursion: `args` still to read, `acc` the options so far.
      A successful parse had its arguments pair up, or end in a lone `-l`. */
  function ParseFrom(args: seq<string>, acc: Options): (r: Result<Options, ArgError>)
    ensures r.Ok? ==> |args| % 2 == 0 || args[|args| - 1] == "-l"
    decreases |args|
  {
    if args == [] then Ok(acc)
    else if !IsFlag(args[0]) then Err(Unrecognized(args[0]))
    else if |args| == 1 then
      if args[0] == "-l" then Ok(Setting(acc, "-l", None)) else Err(MissingPath(args[0]))
    else ParseFrom(args[2..], Setting(acc, args[0], Some(args[1])))
  }

  /** A successful parse read a flag at every even position. */
  lemma {:induction false} ParsedFlags(args: seq<string>, acc: Options)
    requires ParseFrom(args, acc).Ok?
    ensures forall k :: 0 <= k < |args| && k % 2 == 0 ==> IsFlag(args[k])
    decreases |args|
  {
    if |args| >= 2 {
      ParsedFlags(args[2..], Setting(acc, args[0], Some(args[1])));
      forall k | 2 <= k < |args| && k % 2 == 0 ensures IsFlag(args[k]) {
        assert args[k] == args[2..][k - 2];
      }
    }
  }

  /** `parse_argv`: the options the command line asks for, or the error it throws. */
  method ParseArgv(argv: seq<string>) returns (r: Result<Options, ArgError>)
    ensures r == ParseFrom(UserArgs(argv), Defaults)
    ensures |argv| <= 2 ==> r == Ok(Defaults)
  {
    var ret := Defaults;
    var i := 2;
    while i < |argv|
      invariant 2 <= i
      invariant ParseFrom(UserArgs(argv), Defaults) == ParseFrom(ArgsFrom(argv, i), ret)
      decreases |argv| - i
    {
      var a := argv[i];
      ParseFromAt(argv, i, ret);
      if a == "-i" {
        if i + 1 >= |argv| {
          return Err(MissingPath(a));
        }
        assert ret.(input := Some(argv[i + 1])) == Setting(ret, a, Some(argv[i + 1]));
        ret := ret.(input := Some(argv[i + 1]));
        i := i + 1;
      } else if a == "-o" {
        if i + 1 >= |argv| {
          return Err(MissingPath(a));
        }
        assert ret.(output := Some(argv[i + 1])) == Setting(ret, a, Some(argv[i + 1]));
        ret := ret.(output := Some(argv[i + 1]));
        i := i + 1;
      } else if a == "-l" {
        var value := if i + 1 < |argv| then Some(argv[i + 1]) else None;
        assert ret.(limit := ParseLimit(value)) == Setting(ret, a, value);
        ret := ret.(limit := ParseLimit(value));
        i := i + 1;
      } else {
        return Err(Unrecognized(a));
      }
      i := i + 1;
    }
    r := Ok(ret);
  }

  /** One round of the loop at index `i`, read off the recursion. */
  lemma ParseFromAt(argv: seq<string>, i: nat, acc: Options)
    requires i < |argv|
    ensures !IsFlag(argv[i]) ==> ParseFrom(ArgsFrom(argv, i), acc) == Err(Unrecognized(argv[i]))
    ensures IsFlag(argv[i]) && i + 1 < |argv| ==>
              ParseFrom(ArgsFrom(argv, i), acc) == ParseFrom(ArgsFrom(argv, i + 2), Setting(acc, argv[i], Some(argv[i + 1])))
    ensures IsFlag(argv[i]) && i + 1 >= |argv| ==>
              ParseFrom(ArgsFrom(argv, i), acc) ==
                if argv[i] == "-l" then Ok(Setting(acc, "-l", None)) else Err(MissingPath(argv[i]))
  {
    var args := ArgsFrom(argv, i);
    assert args[0] == argv[i];
    if i + 1 < |argv| {
      assert args[1] == argv[i + 1];
      assert args[2..] == ArgsFrom(argv, i + 2);
    }
  }

  /** A command line made of flag-value pairs, in order. */
  function PairArgs(pairs: seq<(string, string)>): seq<string>
  {
    if pairs == [] then [] else [pairs[0].0, pairs[0].1] + PairArgs(pairs[1..])
  }

  /** The options after each pair in turn has been applied. */
  function ApplyAll(acc: Options, pairs: seq<(string, string)>): Options
    requires forall k :: 0 <= k < |pairs| ==> IsFlag(pairs[k].0)
    decreases |pairs|
  {
    if pairs == [] then acc else ApplyAll(Setting(acc, pairs[0].0, Some(pairs[0].1)), pairs[1..])
  }

  /** Flag-value pairs always parse, whatever the values are (a value that
      looks like a flag is still a value), and each pair is applied in turn. */
  lemma {:induction false} ParsePairs(pairs: seq<(string, string)>, acc: Options)
    requires forall k :: 0 <= k < |pairs| ==> IsFlag(pairs[k].0)
    ensures ParseFrom(PairArgs(pairs), acc) == Ok(ApplyAll(acc, pairs))
    decreases |pairs|
  {
    if pairs != [] {
      var args := PairArgs(pairs);
      assert args[2..] == PairArgs(pairs[1..]);
      ParsePairs(pairs[1..], Setting(acc, pairs[0].0, Some(pairs[0].1)));
    }
  }

  /** The value given with the last occurrence of `flag`, if it occurs. */
  function LastValue(pairs: seq<(string, string)>, flag: string): Option<string>
    decreases |pairs|
  {
    if pairs == [] then None
    else if pairs[|pairs| - 1].0 == flag then Some(pairs[|pairs| - 1].1)
    else LastValue(pairs[..|pairs| - 1], flag)
  }

  lemma {:induction false} ApplyAllSnoc(acc: Options, pairs: seq<(string, string)>, flag: string, value: string)
    requires forall k :: 0 <= k < |pairs| ==> IsFlag(pairs[k].0)
    requires IsFlag(flag)
    ensures ApplyAll(acc, pairs + [(flag, value)]) == Setting(ApplyAll(acc, pairs), flag, Some(value))
    decreases |pairs|
  {
    if pairs != [] {
      assert (pairs + [(flag, value)])[1..] == pairs[1..] + [(flag, value)];
      ApplyAllSnoc(Setting(acc, pairs[0].0, Some(pairs[0].1)), pairs[1..], flag, value);
    }
  }

  /** A later occurrence of a flag overrides every earlier one; a flag that
      never occurs keeps its default. */
  lemma {:induction false} LastOccurrenceWins(pairs: seq<(string, string)>)
    requires forall k :: 0 <= k < |pairs| ==> IsFlag(pairs[k].0)
    ensures var o := ApplyAll(Defaults, pairs);
            o.input == LastValue(pairs, "-i") &&
            o.output == LastValue(pairs, "-o") &&
            o.limit == (if LastValue(pairs, "-l").Some? then ParseLimit(LastValue(pairs, "-l")) else Unlimited)
  {
    if pairs != [] {
      var init := pairs[..|pairs| - 1];
      var last := pairs[|pairs| - 1];
      assert pairs == init + [last];
      LastOccurrenceWins(init);
      ApplyAllSnoc(Defaults, init, last.0, last.1);
    }
  }

  /** A parse fails only on an argument read in flag position: one that is not
      a flag, or `-i`/`-o` with nothing after it. */
  lemma {:induction false} ParseErrors(args: seq<string>, acc: Options)
    ensures ParseFrom(args, acc).Err? && ParseFrom(args, acc).error.Unrecognized? ==>
              ParseFrom(args, acc).error.arg in args && !IsFlag(ParseFrom(args, acc).error.arg)
    ensures ParseFrom(args, acc).Err? && ParseFrom(args, acc).error.MissingPath? ==>
              args != [] && ParseFrom(args, acc).error.flag == args[|args| - 1] &&
              ParseFrom(args, acc).error.flag in {"-i", "-o"}
    decreases |args|
  {
    if |args| >= 2 && IsFlag(args[0]) {
      ParseErrors(args[2..], Setting(acc, args[0], Some(args[1])));
      if args[2..] != [] {
        assert args[2..][|args[2..]| - 1] == args[|args| - 1];
      }
    }
  }

  lemma {:induction false} PairArgsAppend(pairs: seq<(string, string)>, tail: seq<string>)
    requires pairs != []
    ensures (PairArgs(pairs) + tail)[..2] == [pairs[0].0, pairs[0].1]
    ensures (PairArgs(pairs) + tail)[2..] == PairArgs(pairs[1..]) + tail
  {
    assert PairArgs(pairs) + tail == [pairs[0].0, pairs[0].1] + (PairArgs(pairs[1..]) + tail);
  }

  /** After any run of flag-value pairs, an argument in flag position that is
      not a flag throws, whatever follows it. */
  lemma {:induction false} NonFlagFails(pairs: seq<(string, string)>, a: string, rest: seq<string>, acc: Options)
    requires forall k :: 0 <= k < |pairs| ==> IsFlag(pairs[k].0)
    requires !IsFlag(a)
    ensures ParseFrom(PairArgs(pairs) + [a] + rest, acc) == Err(Unrecognized(a))
    decreases |pairs|
  {
    if pairs == [] {
      assert PairArgs(pairs) + [a] + rest == [a] + rest;
    } else {
      PairArgsAppend(pairs, [a] + rest);
      assert PairArgs(pairs) + [a] + rest == PairArgs(pairs) + ([a] + rest);
      assert PairArgs(pairs[1..]) + [a] + rest == PairArgs(pairs[1..]) + ([a] + rest);
      NonFlagFails(pairs[1..], a, rest, Setting(acc, pairs[0].0, Some(pairs[0].1)));
    }
  }

  /** After any run of flag-value pairs, `-i` or `-o` as the last argument
      throws, and `-l` as the last argument sets the limit to NaN. */
  lemma {:induction false} TrailingFlag(pairs: seq<(string, string)>, flag: string, acc: Options)
    requires forall k :: 0 <= k < |pairs| ==> IsFlag(pairs[k].0)
    requires IsFlag(flag)
    ensures flag != "-l" ==> ParseFrom(PairArgs(pairs) + [flag], acc) == Err(MissingPath(flag))
    ensures flag == "-l" ==>
              ParseFrom(PairArgs(pairs) + [flag], acc) == Ok(ApplyAll(acc, pairs).(limit := NotANumber))
    decreases |pairs|
  {
    if pairs == [] {
      assert PairArgs(pairs) + [flag] == [flag];
    } else {
      PairArgsAppend(pairs, [flag]);
      TrailingFlag(pairs[1..], flag, Setting(acc, pairs[0].0, Some(pairs[0].1)));
    }
  }
}
