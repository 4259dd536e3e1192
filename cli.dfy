/** The command line front end of src/main.c: fold the options `getopt` returns
    into the settings, leave early on `-h` or a bad option, prepare the output
    directory, build the two paths inside it and hand over to `monkey`. */
module Cli {
  import LibC
  import Sampling
  import Interrupt
  import Monkey
  import opened Wrappers

  const DEFAULT_READ_MAX: int := 1024
  const DEFAULT_OUTPUT_DIRECTORY: string := "tmp"
  const DEFAULT_SOURCE_FILE_NAME: string := "_test.c"
  const DEFAULT_OUTPUT_FILE_NAME: string := "_a.out"

  /** The size of the buffers the paths are written into. */
  const PATH_BUFFER: nat := 255

  // ---------------------------------------------------------------- atoi

  predicate IsSpace(c: char) {
    c == ' ' || ('\t' <= c <= '\r')
  }

  predicate IsDigit(c: char) {
    '0' <= c <= '9'
  }

  /** The longest prefix of `s` made of digits. */
  function DigitPrefix(s: string): (d: string)
    ensures d <= s
    ensures forall i :: 0 <= i < |d| ==> IsDigit(d[i])
    ensures |d| < |s| ==> !IsDigit(s[|d|])
  {
    if s == [] || !IsDigit(s[0]) then [] else [s[0]] + DigitPrefix(s[1..])
  }

  function DigitValue(c: char): (v: nat)
    requires IsDigit(c)
    ensures v < 10
  {
    c as int - '0' as int
  }

  /** The value of a string of decimal digits, most significant first. */
  function DigitsValue(d: string): nat
    requires forall i :: 0 <= i < |d| ==> IsDigit(d[i])
  {
    if d == [] then 0 else 10 * DigitsValue(d[..|d| - 1]) + DigitValue(d[|d| - 1])
  }

  /** `atoi` on a string whose value fits an `int`: leading white space is skipped, then an
      optional sign, then the digits up to the first non-digit; no digits give 0. */
  function Atoi(s: string): (n: int)
    ensures (forall i :: 0 <= i < |s| ==> !IsDigit(s[i])) ==> n == 0
    ensures (forall i :: 0 <= i < |s| ==> s[i] != '-') ==> n >= 0
  {
    if s != [] && IsSpace(s[0]) then Atoi(s[1..])
    else if s != [] && s[0] == '-' then -(DigitsValue(DigitPrefix(s[1..])) as int)
    else if s != [] && s[0] == '+' then DigitsValue(DigitPrefix(s[1..]))
    else DigitsValue(DigitPrefix(s))
  }

  /** The decimal spelling of `n`, without leading zeros. */
  function Decimal(n: nat): (d: string)
    ensures |d| > 0 && forall i :: 0 <= i < |d| ==> IsDigit(d[i])
  {
    if n < 10 then [('0' as int + n) as char] else Decimal(n / 10) + [('0' as int + n % 10) as char]
  }

  lemma {:induction false} DigitsValueOfDecimal(n: nat)
    ensures DigitsValue(Decimal(n)) == n
  {
    if n >= 10 {
      DigitsValueOfDecimal(n / 10);
      var d := Decimal(n);
      assert d[..|d| - 1] == Decimal(n / 10);
    }
  }

  lemma {:induction false} DigitPrefixOfDigits(d: string)
    requires forall i :: 0 <= i < |d| ==> IsDigit(d[i])
    ensures DigitPrefix(d) == d
  {
    if d != [] {
      DigitPrefixOfDigits(d[1..]);
    }
  }

  /** `atoi` reads back every decimal numeral, with or without a sign: `-n 1024`, `-n +7`
      and `-n -3` give 1024, 7 and -3. */
  lemma AtoiOfDecimal(n: nat)
    ensures Atoi(Decimal(n)) == n
    ensures Atoi("+" + Decimal(n)) == n
    ensures Atoi("-" + Decimal(n)) == -(n as int)
  {
    DigitPrefixOfDigits(Decimal(n));
    DigitsValueOfDecimal(n);
    assert ("+" + Decimal(n))[1..] == Decimal(n);
    assert ("-" + Decimal(n))[1..] == Decimal(n);
  }

  // ---------------------------------------------------------------- options

  /** One result of `getopt`: the option character it returned and, for `-i`, `-n` and
      `-o`, the argument it set `optarg` to. It returns `'?'` for an unknown option and
      for an option whose argument is missing. */
  datatype Parsed = Parsed(opt: char, optarg: string)

  /** The settings the option loop maintains. */
  datatype Options = Options(verbose: bool, silent: bool, readMax: int, sourceName: string, outputName: string)

  const Defaults: Options := Options(false, false, DEFAULT_READ_MAX, DEFAULT_SOURCE_FILE_NAME, DEFAULT_OUTPUT_FILE_NAME)

  /** Where the option loop stands: still going, or left `main` with a status. */
  datatype Step = Continue(options: Options) | Exit(code: int)

  /** The `switch` of the option loop, for one option. */
  function ApplyOption(o: Options, p: Parsed): (step: Step)
    ensures step.Exit? <==> !Continues(p.opt)
    ensures step.Exit? ==> step.code == (if p.opt == 'h' then 0 else 1)
    ensures step.Continue? ==>
      && (p.opt != 'n' ==> step.options.readMax == o.readMax)
      && (p.opt != 'i' ==> step.options.sourceName == o.sourceName)
      && (p.opt != 'o' ==> step.options.outputName == o.outputName)
      && (p.opt != 's' && p.opt != 'v' ==> step.options.verbose == o.verbose && step.options.silent == o.silent)
  {
    match p.opt
    case 'h' => Exit(0)
    case 'i' => Continue(o.(sourceName := p.optarg))
    case 'n' => Continue(o.(readMax := Atoi(p.optarg)))
    case 'o' => Continue(o.(outputName := p.optarg))
    case 's' => Continue(o.(silent := true, verbose := false))
    case 'v' => Continue(o.(verbose := true, silent := false))
    case _ => Exit(1)
  }

  /** The options in order, stopping at the first one that leaves `main`. */
  function FoldOptions(o: Options, ps: seq<Parsed>): (step: Step)
    ensures step.Exit? ==> step.code == 0 || step.code == 1
    ensures step.Exit? <==> exists k :: 0 <= k < |ps| && !Continues(ps[k].opt)
    decreases |ps|
  {
    if ps == [] then Continue(o)
    else match ApplyOption(o, ps[0])
      case Exit(code) => Exit(code)
      case Continue(o') => FoldOptions(o', ps[1..])
  }

  /** The option loop of `main`: `verbose`, `silent`, `read_max` and the two names start at
      their defaults and each option updates them in turn; `-h` leaves with 0, `'?'` and any
      other character with 1. */
  method ParseOptions(ps: seq<Parsed>) returns (step: Step)
    ensures step == FoldOptions(Defaults, ps)
  {
    var verbose := false;
    var silent := false;
    var readMax := DEFAULT_READ_MAX;
    var outputName := DEFAULT_OUTPUT_FILE_NAME;
    var sourceName := DEFAULT_SOURCE_FILE_NAME;
    var k := 0;
    while k < |ps|
      invariant 0 <= k <= |ps|
      invariant FoldOptions(Defaults, ps) == FoldOptions(Options(verbose, silent, readMax, sourceName, outputName), ps[k..])
      decreases |ps| - k
    {
      assert ps[k..][1..] == ps[k + 1..];
      var p := ps[k];
      match p.opt {
        case 'h' =>
          return Exit(0);
        case 'i' =>
          sourceName := p.optarg;
        case 'n' =>
          readMax := Atoi(p.optarg);
        case 'o' =>
          outputName := p.optarg;
        case 's' =>
          silent := true;
          verbose := false;
        case 'v' =>
          verbose := true;
          silent := false;
        case _ =>
          return Exit(1);
      }
      k := k + 1;
    }
    return Continue(Options(verbose, silent, readMax, sourceName, outputName));
  }

  /** The options that do not leave `main`. */
  predicate Continues(c: char) {
    c == 'i' || c == 'n' || c == 'o' || c == 's' || c == 'v'
  }

  /** `-v` and `-s` undo each other, so from a state where they are not both set they are
      never both set. */
  lemma {:induction false} ModesExclusive(o: Options, ps: seq<Parsed>)
    requires !(o.verbose && o.silent)
    ensures FoldOptions(o, ps).Continue? ==> !(FoldOptions(o, ps).options.verbose && FoldOptions(o, ps).options.silent)
    decreases |ps|
  {
    if ps != [] && ApplyOption(o, ps[0]).Continue? {
      ModesExclusive(ApplyOption(o, ps[0]).options, ps[1..]);
    }
  }

  /** The last `-s` or `-v` among `ps`, if any. */
  function LastMode(ps: seq<Parsed>): Option<char> {
    if ps == [] then None
    else if ps[|ps| - 1].opt == 's' || ps[|ps| - 1].opt == 'v' then Some(ps[|ps| - 1].opt)
    else LastMode(ps[..|ps| - 1])
  }

  /** The argument of the last occurrence of option `c` among `ps`, if any. */
  function LastArg(ps: seq<Parsed>, c: char): Option<string> {
    if ps == [] then None
    else if ps[|ps| - 1].opt == c then Some(ps[|ps| - 1].optarg)
    else LastArg(ps[..|ps| - 1], c)
  }

  /** The settings after options none of which leaves `main`, stated option by option: the
      last `-s`/`-v` decides the mode (neither keeps the initial one), the last `-i`, `-n` and
      `-o` decide their own setting (none keeps the initial value). */
  function Expected(o: Options, ps: seq<Parsed>): Options {
    var mode := LastMode(ps);
    Options(
      if mode.Some? then mode.value == 'v' else o.verbose,
      if mode.Some? then mode.value == 's' else o.silent,
      if LastArg(ps, 'n').Some? then Atoi(LastArg(ps, 'n').value) else o.readMax,
      if LastArg(ps, 'i').Some? then LastArg(ps, 'i').value else o.sourceName,
      if LastArg(ps, 'o').Some? then LastArg(ps, 'o').value else o.outputName)
  }

  lemma {:induction false} FoldSnoc(o: Options, ps: seq<Parsed>, p: Parsed)
    requires FoldOptions(o, ps).Continue?
    ensures FoldOptions(o, ps + [p]) == ApplyOption(FoldOptions(o, ps).options, p)
    decreases |ps|
  {
    if ps == [] {
      assert ([] + [p])[1..] == [];
    } else {
      assert (ps + [p])[1..] == ps[1..] + [p];
      FoldSnoc(ApplyOption(o, ps[0]).options, ps[1..], p);
    }
  }

  /** Options none of which leaves `main` give exactly the settings `Expected` describes. */
  lemma {:induction false} FoldIsLastWins(o: Options, ps: seq<Parsed>)
    requires forall j :: 0 <= j < |ps| ==> Continues(ps[j].opt)
    ensures FoldOptions(o, ps) == Continue(Expected(o, ps))
    decreases |ps|
  {
    if ps == [] {
    } else {
      var init := ps[..|ps| - 1];
      var p := ps[|ps| - 1];
      FoldIsLastWins(o, init);
      assert init + [p] == ps;
      FoldSnoc(o, init, p);
      ExpectedSnoc(o, init, p);
    }
  }

  /** One more option updates the expected settings as the `switch` does. */
  lemma ExpectedSnoc(o: Options, ps: seq<Parsed>, p: Parsed)
    requires Continues(p.opt)
    ensures ApplyOption(Expected(o, ps), p) == Continue(Expected(o, ps + [p]))
  {
    var qs := ps + [p];
    assert qs[..|qs| - 1] == ps;
    assert LastMode(qs) == if p.opt == 's' || p.opt == 'v' then Some(p.opt) else LastMode(ps);
  }

  /** Without any option every setting keeps its default. */
  lemma NoOptionsKeepDefaults()
    ensures FoldOptions(Defaults, []) == Continue(Options(false, false, 1024, "_test.c", "_a.out"))
  {
  }

  /** The first option that is not `-i`, `-n`, `-o`, `-s` or `-v` decides the exit:
      status 0 for `-h`, 1 for anything else, whatever the later options are. */
  lemma {:induction false} ExitAtFirstStop(o: Options, ps: seq<Parsed>, k: nat)
    requires k < |ps| && !Continues(ps[k].opt)
    requires forall j :: 0 <= j < k ==> Continues(ps[j].opt)
    ensures FoldOptions(o, ps) == Exit(if ps[k].opt == 'h' then 0 else 1)
    decreases k
  {
    if k > 0 {
      assert Continues(ps[0].opt);
      ExitAtFirstStop(ApplyOption(o, ps[0]).options, ps[1..], k - 1);
    }
  }

  // ---------------------------------------------------------------- paths

  /** A path as `main` builds it: what `snprintf` stored, and whether the length check let
      it through. */
  datatype PathResult = PathResult(ok: bool, stored: string)

  /** `snprintf(buf, 255, "%s/%s", dir, name)` and the check `length > 255` as written. */
  function JoinPathAsWritten(dir: string, name: string): (r: PathResult)
    ensures r.ok <==> |dir| + 1 + |name| <= PATH_BUFFER
    ensures |dir| + 1 + |name| < PATH_BUFFER ==> r.stored == dir + "/" + name
    ensures |dir| + 1 + |name| >= PATH_BUFFER ==> r.stored == (dir + "/" + name)[..PATH_BUFFER - 1]
  {
    var formatted := dir + "/" + name;
    PathResult(!(|formatted| > PATH_BUFFER), LibC.SnprintfStored(formatted, PATH_BUFFER))
  }

  /** The check as written lets a path of exactly 255 characters through, although the
      buffer kept only its first 254: with the default directory and a 251-character name,
      `monkey` would be handed a path missing its last character. */
  lemma PathOf255Truncated()
    ensures var name := seq(251, _ => 'x');
            var r := JoinPathAsWritten(DEFAULT_OUTPUT_DIRECTORY, name);
            var path := DEFAULT_OUTPUT_DIRECTORY + "/" + name;
            r.ok && |path| == 255 && r.stored == path[..254] && r.stored != path
  {
    var name := seq(251, _ => 'x');
    var r := JoinPathAsWritten(DEFAULT_OUTPUT_DIRECTORY, name);
    assert |r.stored| < |DEFAULT_OUTPUT_DIRECTORY + "/" + name|;
  }

  /** The path join with the check the buffer calls for: a path is accepted exactly when
      it fits the buffer whole, and then it is `dir + "/" + name`. */
  function JoinPath(dir: string, name: string): (r: Option<string>)
    ensures r.Some? <==> |dir| + 1 + |name| < PATH_BUFFER
    ensures r.Some? ==> r.value == dir + "/" + name
  {
    var stored := LibC.SnprintfStored(dir + "/" + name, PATH_BUFFER);
    if |dir + "/" + name| >= PATH_BUFFER then None else Some(stored)
  }

  /** Every path the corrected join accepts, the join as written accepts and stores whole;
      the two differ only on paths of exactly 255 characters. */
  lemma JoinPathAgrees(dir: string, name: string)
    ensures JoinPath(dir, name).Some? ==>
              JoinPathAsWritten(dir, name).ok && JoinPathAsWritten(dir, name).stored == JoinPath(dir, name).value
    ensures JoinPath(dir, name).None? && JoinPathAsWritten(dir, name).ok ==> |dir| + 1 + |name| == PATH_BUFFER
  {
  }

  // ---------------------------------------------------------------- main

  /** Whether `main` gets as far as calling `monkey`: no option left it, the directory was
      prepared, and both path checks, as written, let their paths through. */
  predicate CallsMonkey(ps: seq<Parsed>, dirStatus: int) {
    && FoldOptions(Defaults, ps).Continue?
    && dirStatus == 0
    && JoinPathAsWritten(DEFAULT_OUTPUT_DIRECTORY, FoldOptions(Defaults, ps).options.outputName).ok
    && JoinPathAsWritten(DEFAULT_OUTPUT_DIRECTORY, FoldOptions(Defaults, ps).options.sourceName).ok
  }

  /** What `main` does after the options: `dirStatus` is the status of
      `createOrEmptyTmpDirectory`, and the remaining parameters are the environment of
      `monkey`. `main` returns `status`; `outcome` is how `monkey` ended, when it ran.
      `monkey` is handed what `snprintf` stored, so a path of exactly 255 characters
      reaches it without its last character. The demands on the `-n` value and on the
      environment only apply when the attempt loop is reached. */
  method RunMain(ps: seq<Parsed>, dirStatus: int,
                 flag: Interrupt.Flag, prng: LibC.Prng, clock: int, now: int, pid: int,
                 rand: Sampling.Rand, oracle: nat -> Monkey.Observation, interruptAt: Option<nat>)
    returns (status: int, outcome: Option<Monkey.Outcome>)
    requires FoldOptions(Defaults, ps).Continue? ==>
      LibC.INT_MIN <= FoldOptions(Defaults, ps).options.readMax <= LibC.INT_MAX
    requires CallsMonkey(ps, dirStatus) ==>
      var o := FoldOptions(Defaults, ps).options;
      Monkey.BuildCommand(Monkey.MAX_COMMAND_LENGTH, o.verbose,
                          JoinPathAsWritten(DEFAULT_OUTPUT_DIRECTORY, o.sourceName).stored,
                          JoinPathAsWritten(DEFAULT_OUTPUT_DIRECTORY, o.outputName).stored).ok ==>
        && o.readMax != -1 && o.readMax < LibC.INT_MAX
        && Sampling.Recurrent(Monkey.Textual, rand)
        && (interruptAt.Some? || exists n :: Monkey.Judge(oracle(n)) != Monkey.Failure)
    modifies flag, prng
    ensures FoldOptions(Defaults, ps).Exit? ==>
      status == FoldOptions(Defaults, ps).code && outcome == None && unchanged(flag, prng)
    ensures FoldOptions(Defaults, ps).Continue? && !CallsMonkey(ps, dirStatus) ==>
      status == 1 && outcome == None && unchanged(flag, prng)
    ensures outcome.Some? <==> CallsMonkey(ps, dirStatus)
    ensures outcome.Some? ==> status == Monkey.Status(outcome.value)
    ensures outcome.Some? ==>
      var o := FoldOptions(Defaults, ps).options;
      (outcome.value == Monkey.BadCommand <==>
        !Monkey.BuildCommand(Monkey.MAX_COMMAND_LENGTH, o.verbose,
                             JoinPathAsWritten(DEFAULT_OUTPUT_DIRECTORY, o.sourceName).stored,
                             JoinPathAsWritten(DEFAULT_OUTPUT_DIRECTORY, o.outputName).stored).ok)
    ensures outcome.Some? && outcome.value != Monkey.BadCommand ==>
      Monkey.Explains(outcome.value, old(flag.keepMonkeying), interruptAt, oracle,
                      FoldOptions(Defaults, ps).options.readMax)
  {
    var step := ParseOptions(ps);
    if step.Exit? {
      return step.code, None;
    }
    var o := step.options;
    if dirStatus != 0 {
      return 1, None;
    }
    var outputFile := JoinPathAsWritten(DEFAULT_OUTPUT_DIRECTORY, o.outputName);
    if !outputFile.ok {
      return 1, None;
    }
    var sourceFile := JoinPathAsWritten(DEFAULT_OUTPUT_DIRECTORY, o.sourceName);
    if !sourceFile.ok {
      return 1, None;
    }
    var result := Monkey.Monkey(sourceFile.stored, outputFile.stored, o.readMax, o.verbose, o.silent,
                                flag, prng, clock, now, pid, rand, oracle, interruptAt);
    return Monkey.Status(result), Some(result);
  }
}
